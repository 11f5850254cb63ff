# Cardnet server core, modelled in Dafny

Cardnet is a two-player card game in the style of Magic: the Gathering.
Its server keeps the game in an entity-component world (the `esper`
library). Players, cards, commands and the game phase are entities. Their
records and marker components are the components. The clients send JSON
commands over TCP. Each command becomes a command entity, and the server's
processors (rule systems) consume these entities 30 times a second.
Everything the systems do goes into an event queue. The game loop
broadcasts that queue and then, when the tick's events call for it, sends
each connected seat a snapshot of the world tailored to that seat.

The model covers:

- **Components** (`components.dfy`): the component and command records of
  `src/common/components.py`. Marker components become the constructors of
  `Marker`.
- **The world** (`worldstate.dfy`, module `Ecs`): the entity database as a
  value. It holds one map per component type, the set of (entity, marker)
  pairs, the entity table, the entity counter and the event queue. Query
  order is ascending entity id.
- **The rule systems** of `src/server/systems.py`, one module each, as
  functions from a world to a world:
  - `GraveyardRules`: `_move_to_graveyard`.
  - `PlayCardRules`: `PlayCardSystem`.
  - `TapLandRules`: `TapLandSystem`.
  - `CombatRules`: `AttackSystem`.
  - `TurnRules`: `TurnManagementSystem`.
  - `MulliganRules`: `MulliganSystem`.
  - `GameOverRules`: `GameOverSystem`. This is a class, because its latch
    fields change from one tick to the next.

  A system either returns the new world (`Running`) or `Crashed`.
  `Crashed` means an exception other than a caught `KeyError` escaped, and
  the game loop stops (`src/server/main.py:312-315`).
- **The engine** (`engine.dfy`): a `World` class whose one field is the
  whole mutable database, event queue included. It has one method per
  processor loop. Each method walks its command queue in order and updates
  the world in place. Each method is proved equal to the rule function it
  implements, so everything proved about the rules holds of the world. The
  tick runs the processors in registration order (`src/server/main.py:419-425`).
- **Set-up** (`setup.dfy`): `setup_new_game` and `create_deck_for_player`.
- **The network side** of `src/server/main.py`:
  - `lobby.dfy`: the two-seat session table, with connect and disconnect.
  - `intake.dfy`: the decoding of a client's line into a command, including
    the turn gate.
  - `views.dfy`: the per-viewer snapshot and its redaction of the
    opponent's hand.
  - `broadcast.dfy`: the delivery half of a tick and the snapshot decision.

Where the documented design and the code disagree, the model follows the
code:

- A mulligan removes `MulliganDecisionPhase`, and a valid put-bottom
  command restores it.
- `KeepHand` grants `KeptHand` whatever the number of cards in the hand.
- A disconnected seat does not hold back the start of the game.
- The end of combat does not run when a lookup fails part-way.
- A card view's `can_attack` looks only at `Tapped` and `SummoningSickness`,
  not at whether the card is on the board.
- `GameOverSystem` runs first but does not stop the other processors.

## Model

| member | source | states |
|---|---|---|
| Components.EmptyManaPool | src/common/components.py:6-14 | A `ManaPool` built without arguments has all six colour counters at zero. |
| Components.NewPlayer | src/common/components.py:16-20 | A player built with only an id has that id and 30 health. The pool is the integer zero that the rule systems expect (see Findings). |
| Components.NewCardInfo | src/common/components.py:22-30 | A card record built from a name, a type and a cost has no `produces`, attack, health or maximum health. |
| Components.NewSpellEffect | src/common/components.py:32-36 | A spell effect built without `requires_target` does not require a target. |
| Components.NewMulliganCount | src/common/components.py:110-113 | The mulligan count starts at zero. |
| Components.NewPlayCardCommand | src/common/components.py:147-151 | A play command built without a target has none. |
| Components.BlockedAttacker | src/common/components.py:162-165 | The blocks map answers for a blocker exactly when the blocker is one of its keys, and then gives that entry's attacker. |
| Ecs.Cleared | src/server/main.py:321 | Clearing the database leaves no entity, sets the entity counter back to 1 and keeps the event queue. |
| Ecs.Holders | src/server/systems.py:606 | The holders of a marker are exactly the entities carrying it. |
| Ecs.Ascending | src/server/systems.py:201 | The query order of a set: every member exactly once, in strictly increasing order. |
| Ecs.FirstHolder | src/server/systems.py:194-196 | The first holder of a marker in query order: none exactly when nobody holds it, otherwise the least holder. |
| Ecs.PlayerList | src/server/systems.py:201 | The player list holds exactly the `Player` entities, each once, in query order. |
| Ecs.CommandIds | src/server/systems.py:139 | The queued commands of one kind are exactly the command entities of that kind, in query order. |
| Ecs.QueuedIds | src/server/systems.py:484 | The command entities of a queue read from `esper.get_component` (TapLandCommand here, EndTurnCommand at :192): exactly the first components of its pairs. |
| Ecs.QueuedIdsSplit | src/server/systems.py:192 | A queue's command entities are its first one and those of the rest. |
| Ecs.FirstOther | src/server/systems.py:356 | The first entry different from a given one: none exactly when every entry equals it, otherwise a member of the list that differs from it. |
| Ecs.IndexOf | src/server/systems.py:224 | `list.index`: the first position holding the element. |
| Ecs.RemoveMark | src/server/systems.py:234 | Removing a marker takes away only that pair. An entity that still has a record stays in the entity table. |
| Ecs.DeleteEntity | src/server/systems.py:179 | Deleting an entity removes it and every component it carries. Every other entity stays, and the counter and the queue are unchanged. |
| Ecs.AddMarkTracked | src/server/systems.py:504 | Adding a component keeps every marked entity in the entity table. |
| Ecs.RemoveMarkTracked | src/server/systems.py:234 | Removing a component keeps every marked entity in the entity table. |
| Ecs.DeleteEntityTracked | src/server/systems.py:179 | Deleting an entity keeps every remaining marked entity in the entity table. |
| GraveyardRules.MoveToGraveyard | src/server/systems.py:13-32 | A card that does not exist is left alone. An existing card always produces one CARD_DIED event, and the entity counter never moves. |
| GraveyardRules.ToOwnGraveyard | src/server/systems.py:16-20 | A card whose owner keeps a graveyard becomes the last entry of that graveyard. No other record and not the entity table change. |
| GraveyardRules.GraveyardMarks | src/server/systems.py:22-27 | The moved card is `InGraveyard`, out of the hand and off the board. Its other markers are unchanged. |
| GraveyardRules.ToNowhere | src/server/systems.py:29-32 | A card without an owner, or whose owner has no graveyard, is deleted. Every other entity stays. |
| GraveyardRules.OthersKeepMarks | src/server/systems.py:13-32 | Every other entity keeps its markers. |
| GraveyardRules.OnlyGraveyardMarkAdded | src/server/systems.py:13-32 | No marker other than `InGraveyard` is added. |
| GraveyardRules.MoveTracked | src/server/systems.py:13-32 | The move keeps every marked entity in the entity table. |
| PlayCardRules.PlayLand | src/server/systems.py:44-60 | A second land in a turn only yields an error. Otherwise the land goes from the hand to the board at no cost, and `PlayedLandThisTurn` is set with a CARD_MOVED event. No other marker and no record changes. |
| PlayCardRules.PlayMinion | src/server/systems.py:62-78 | The minion's cost comes off the owner's mana, and the minion goes from the hand to the board with summoning sickness. The two events are sent in order, and nothing else changes. |
| PlayCardRules.PlaySpell | src/server/systems.py:80-136 | A spell whose target does not fit is refused before any mana is paid. Other cases are stated by the spell lemmas below. |
| PlayCardRules.Strike | src/server/systems.py:103-130 | Damage crashes exactly when the target is a card without a health value. |
| PlayCardRules.Validate | src/server/systems.py:141-162 | A command passes exactly when all of these hold: the sender holds the turn, the player, card and owner records exist, the card is the sender's and in hand, and it is a land or costs at most the sender's mana. |
| PlayCardRules.PlayCardStep | src/server/systems.py:138-179 | The command entity is deleted in every case. A refused command only sends an ACTION_ERROR with the first failing check. |
| PlayCardRules.PlayCardQueue | src/server/systems.py:139 | The queue lists PlayCardCommand entities with their own commands. |
| PlayCardRules.PayFrame | src/server/systems.py:94-99 | Paying changes only the payer's mana (by minus the cost) and the queue. |
| PlayCardRules.DamageSpellStrikes | src/server/systems.py:101-130 | A fitting DEAL_DAMAGE spell on a hittable target pays, strikes, and then goes to the graveyard. |
| PlayCardRules.StrikePlayer | src/server/systems.py:110-121 | A struck player loses exactly the damage. The caster becomes the winner when health drops to zero or below and no game over exists yet. Cards, owners, graveyards and markers do not change. |
| PlayCardRules.SpellOnPlayer | src/server/systems.py:92-121 | A damage spell on a player charges the caster the cost and lowers the target's health by the spell's value. It records the caster as winner under the same condition. |
| PlayCardRules.StrikeCard | src/server/systems.py:123-126 | A struck card loses exactly the damage. Players, owners and the entity table do not change. |
| PlayCardRules.StrikeKillsCard | src/server/systems.py:123-128 | A card at zero health or below ends `InGraveyard`, out of the hand and off the board. No other entity's markers change. |
| PlayCardRules.StrikeWoundsCard | src/server/systems.py:123-128 | A card that survives keeps every marker, as does every other entity. |
| PlayCardRules.SpellOnCard | src/server/systems.py:92-128 | A damage spell on a card lowers its health by the spell's value and charges the caster the cost. |
| PlayCardRules.SpellKillsCard | src/server/systems.py:122-136 | The target card goes to the graveyard when its health drops to zero or below. Otherwise it keeps all its markers. |
| PlayCardRules.SpellRefunded | src/server/systems.py:101-134 | A damage spell with a missing or wrong-typed target is refused after payment and the cost is refunded. Players, cards and markers end unchanged, and the mana update is followed by the refusal. |
| PlayCardRules.SpellBuried | src/server/systems.py:13-28 | A spell that resolves without damaging a card becomes the last entry of its owner's graveyard, `InGraveyard`, out of the hand and off the board. |
| PlayCardRules.SpellOnCardBuried | src/server/systems.py:122-136 | A damage spell on another card is the last entry of its owner's graveyard, after a target that died into the same graveyard. |
| PlayCardRules.PlayMinionStep | src/server/systems.py:141-168 | An accepted minion costs exactly its cost and lands on the board with summoning sickness, out of the hand. |
| PlayCardRules.PlayLandStep | src/server/systems.py:159-166 | An accepted land costs nothing. It moves to the board only when no land was played this turn. |
| PlayCardRules.PlayCardSystem | src/server/systems.py:138-179 | The queued play commands run in query order, and a crash stops the run. `Engine.World.PlayCards` performs it in place and is proved to crash exactly when it does and otherwise to leave its world. Each step is stated by `PlayCardStep`, `Validate` and the spell lemmas above. |
| TapLandRules.TapRefusal | src/server/systems.py:488-499 | A tap is accepted exactly when all of these hold: the sender holds the turn, the card is a land and untapped, and the sender is a player. It is refused as already tapped exactly when the earlier checks pass and the land is tapped. |
| TapLandRules.TapLandStep | src/server/systems.py:484-513 | The command entity is deleted in every case, and the entity counter does not move. |
| TapLandRules.TapLandQueue | src/server/systems.py:484 | The queue lists TapLandCommand entities with their own commands. |
| TapLandRules.TapGivesOneMana | src/server/systems.py:501-509 | An accepted tap raises the sender's mana by exactly one and taps the card. No other marker changes, and one mana event reports the new pool. |
| TapLandRules.TapRefused | src/server/systems.py:488-513 | A refused tap sends an ACTION_ERROR with the reason and changes no mana and no marker. |
| TapLandRules.StepCommands | src/server/systems.py:512-513 | A step removes its own command entity and leaves every other command as it was. |
| TapLandRules.RunCommands | src/server/systems.py:484-513 | Running a queue removes exactly the queued command entities. |
| TapLandRules.TapLandDrains | src/server/systems.py:483-513 | After the system no TapLandCommand is left, and every other command is still there unchanged. |
| TapLandRules.TapLandSystem | src/server/systems.py:483-513 | The queued tap commands run in query order and never crash. `TapLandDrains` states that exactly those commands are consumed. Each step is stated by `TapRefusal`, `TapGivesOneMana` and `TapRefused`, and `Engine.World.TapLands` performs the loop in place. |
| TurnRules.Heal | src/server/systems.py:212-217 | Afterwards every board minion of the ending player that has a maximum health has a health of at least that maximum. No health went down, and a health changed only to the maximum. No other card, no other field of a card and nothing else in the world changes. |
| TurnRules.NextPlayer | src/server/systems.py:224-225 | The next player is the one after the active player in the player list, wrapping from the last back to the first. |
| TurnRules.Untaps | src/server/systems.py:232-235 | The untap step untaps exactly the tapped cards on the board owned by the new player. |
| TurnRules.Unsicks | src/server/systems.py:239-242 | Summoning sickness ends exactly for the new player's sick cards, wherever they are. |
| TurnRules.Draw | src/server/systems.py:258-272 | A player without a deck, or with an empty one, draws nothing and the world is unchanged. |
| TurnRules.ActivePlayer | src/server/systems.py:192-196 | The active player is the first `ActiveTurn` holder in query order, or -1 when there is none. |
| TurnRules.EndTurnStep | src/server/systems.py:191-205 | The command entity is deleted whenever the loop goes on. `EndTurnStepActive` states what an END_TURN from the turn holder does. |
| TurnRules.EndTurnQueue | src/server/systems.py:191 | The queue lists EndTurnCommand entities with their senders. |
| TurnRules.EndTurnIgnored | src/server/systems.py:198-205 | An END_TURN from anyone but the active player only deletes the command. |
| TurnRules.RefreshFrame | src/server/systems.py:228-255 | The start of a turn sets the new player's mana to zero. It changes no other record and not the entity table. |
| TurnRules.RefreshMarks | src/server/systems.py:230-249 | Afterwards none of the new player's board cards is tapped and none of their cards is sick. They may play a land again, and every other marker is as before. |
| TurnRules.DrawsFront | src/server/systems.py:258-268 | The top card of a non-empty deck is popped and moves from the deck to the hand, with a CARD_DRAWN event. |
| TurnRules.TurnPasses | src/server/systems.py:219-228 | When the single turn holder ends its turn, the next player in the list becomes the single holder. |
| TurnRules.PassedHolders | src/server/systems.py:219-228 | Moving `ActiveTurn` from the single holder to another player makes that player the single holder and changes no player record. |
| TurnRules.DrawKeepsTurn | src/server/systems.py:257-272 | The draw does not touch `ActiveTurn`. |
| TurnRules.EndTurnFor | src/server/systems.py:207-272 | Ending a turn crashes exactly when a board minion of the ending player that has a maximum health has no health, or when the ending entity is not a player. The lemmas below state the world it leaves. |
| TurnRules.EndTurnShape | src/server/systems.py:207-272 | A turn that ends normally is the heal and the hand-over, then the refresh of the next player, then the draw. The next player is a player. |
| TurnRules.PassedFrame | src/server/systems.py:212-227 | The heal and the hand-over change only card healths, markers and events. `ActiveTurn` moves from the ending player to the next, and TURN_ENDED is appended. |
| TurnRules.PassedKeeps | src/server/systems.py:212-227 | The heal and the hand-over keep players, owners and decks, append TURN_ENDED, and change no marker except `ActiveTurn`. |
| TurnRules.DrawFrame | src/server/systems.py:257-272 | The draw changes only decks, markers and events. A non-empty deck loses its front id. CARD_DRAWN is appended exactly when that card was `InDeck`. Only that card's `InDeck` and `InHand` markers can change. |
| TurnRules.EndTurnHeals | src/server/systems.py:207-217 | After a whole end of turn, every board minion of the ending player that has a maximum health is at least at that maximum. No health went down, and no other card and no other field of a card changed. |
| TurnRules.EndTurnRefreshes | src/server/systems.py:228-249 | After a whole end of turn, the next player's mana is 0 and no other player changes. Exactly that player's tapped board cards are untapped. Exactly that player's cards lose summoning sickness, and only that player's land flag is cleared. |
| TurnRules.StartRefreshes | src/server/systems.py:228-249 | The same four facts for the world just before the draw. |
| TurnRules.StartMana | src/server/systems.py:246-247 | Before the draw, only the next player's record has changed, and only its mana, to 0. |
| TurnRules.StartUntaps | src/server/systems.py:230-235 | Before the draw, a card is tapped exactly when it was and it is not a board card of the next player. |
| TurnRules.StartWakes | src/server/systems.py:237-242 | Before the draw, a card is sick exactly when it was and it is not a card of the next player. |
| TurnRules.StartLandFlag | src/server/systems.py:244-245 | Before the draw, only the next player has lost the land flag. |
| TurnRules.RefreshAt | src/server/systems.py:228-249 | The refresh decides each of the three refreshed markers of one entity as the four facts above say. |
| TurnRules.EndTurnDraws | src/server/systems.py:219-272 | After a whole end of turn, the next player's deck has lost its front id when it was non-empty. The events are the old ones followed by TURN_ENDED, TURN_STARTED and PLAYER_MANA_POOL_UPDATED with 0, then CARD_DRAWN exactly when the front card was `InDeck`. That card is then in the hand and out of the deck, and no other card's hand or deck marker changes. |
| TurnRules.StartDraws | src/server/systems.py:219-272 | The same facts for the draw applied to the refreshed world. |
| TurnRules.EndTurnStepActive | src/server/systems.py:191-205 | When the single turn holder, a player, sends END_TURN, the loop goes on and the command entity is gone. Only the next player's record changes, its mana to 0, and the next player is the single turn holder. |
| TurnRules.SoleHolderActive | src/server/systems.py:192-196 | The single holder of `ActiveTurn` is the active player. |
| TurnRules.DeleteKeepsOthers | src/server/systems.py:205 | Deleting a command entity keeps the players and every other entity's markers. |
| TurnRules.EndTurnStepCommands | src/server/systems.py:191-205 | A step that goes on removes its own command entity and no other command. |
| TurnRules.RunEndTurnsCommands | src/server/systems.py:191-205 | A run that goes on removes exactly the queued command entities. |
| TurnRules.TurnSystem | src/server/systems.py:189-205 | The queued END_TURN commands run in query order, and a crash stops the run. `TurnSystemDrains` states the result, and `Engine.World.EndTurns` performs the loop in place. |
| TurnRules.TurnSystemDrains | src/server/systems.py:189-205 | After a run that goes on, no EndTurnCommand is left, and every other command is still there unchanged. |
| GameOverRules.Loser | src/server/systems.py:306-307 | The loser is a player other than the winner, or none exactly when every player is the winner. |
| GameOverRules.GameOverSystem.constructor | src/server/systems.py:279-284 | A new system is not latched and has no timer. |
| GameOverRules.GameOverSystem.Process | src/server/systems.py:286-314 | A tick's latch and world are those of the latch step. |
| GameOverRules.LatchFires | src/server/systems.py:300-314 | An idle latch with a `GameOver` record latches with the timer running. It appends exactly one GAME_OVER naming the first record's winner and the loser, and changes nothing else. |
| GameOverRules.LatchIdle | src/server/systems.py:300-314 | Without a `GameOver` record an idle latch changes nothing. |
| GameOverRules.LatchedIsQuiet | src/server/systems.py:287-298 | A latched system announces nothing. Before the delay nothing changes. After it, the game is rebuilt in the MULLIGAN phase with seven cards per hand and the queue kept, and the latch is idle again. |
| GameOverRules.Rebuilt | src/server/main.py:317-362 | The reset rebuilds the game in the MULLIGAN phase with seven cards in each hand and keeps the event queue. |
| GameOverRules.AnnouncedOnce | src/server/systems.py:286-314 | After an announcement, the next tick before the delay elapses appends nothing, whatever the world holds. |
| GameOverRules.LatchStep | src/server/systems.py:286-314 | One tick of the latch. It is stated by `LatchFires`, `LatchIdle`, `LatchedIsQuiet` and `AnnouncedOnce`, and `GameOverSystem.Process` performs it in place. |
| CombatRules.FilterAttackers | src/server/systems.py:335-341 | The declaration aborts exactly when a declared id exists but has no owner. Otherwise the kept attackers are exactly the declared ids that exist, belong to the player, and are untapped and not sick. |
| CombatRules.Declare | src/server/systems.py:327-362 | A declaration off turn is only refused. |
| CombatRules.NewCombat | src/server/systems.py:379 | The combat map has one empty blocker list per attacking entity, in query order. |
| CombatRules.BlockRefusal | src/server/systems.py:381-399 | A block stands exactly when its attacker is attacking and its blocker is an untapped card owned by the declarer. Nothing checks that the blocker is a minion. |
| CombatRules.AssignBlock | src/server/systems.py:381-399 | One block keeps the attacker order and the set of attackers. |
| CombatRules.AssignBlocks | src/server/systems.py:381-399 | The whole block assignment keeps the attacker order and the set of attackers. |
| CombatRules.Slay | src/server/systems.py:434-438 | The health check crashes exactly when an existing creature has no health. Otherwise the defender's health is carried on. |
| CombatRules.ResolveCombat | src/server/systems.py:364-449 | A declaration from a player who is not waiting for blockers is only refused. |
| CombatRules.Conclude | src/server/systems.py:445-449 | COMBAT_RESOLVED is sent. At zero defender health or below, with no game over yet, a new `GameOver` names the active player as winner; otherwise the game-over records stay. |
| CombatRules.Attack | src/server/systems.py:343-362 | Stated by `NoAttackers`, `AttackMarks`, `AttackSummons`, `Summoned` and `AttackAnnounces`. Without attackers, combat resolves at once. Otherwise the attackers are marked attacking and tapped, and the first other player is asked for blockers. |
| CombatRules.HitDefender | src/server/systems.py:408-415 | Stated by `UnblockedHit` and `HitMarks`. The defender loses exactly the attacker's attack and PLAYER_DAMAGED reports it. An attacker without attack stops the game loop. |
| CombatRules.Clash | src/server/systems.py:416-438 | Stated by `ClashSettles`, `ClashHealths`, `ClashMarks` and `HealthlessBlockerStops`. Each fighter loses the other's attack, then each one at zero health or below dies. A fighter without health or attack stops the game loop. |
| CombatRules.HealthlessBlockerStops | src/server/systems.py:416-432 | A blocker without health stops the game loop with a TypeError. The block checks let any untapped card of the declarer block, so a blocking land or spell card does this. |
| CombatRules.Settle | src/server/systems.py:434-438 | Stated by `SettleKeeps`, `SettleMarks`, `BlockerFate` and `AttackerFate`. The blocker, then the attacker, goes to the graveyard at zero health or below. |
| CombatRules.Fight | src/server/systems.py:404-438 | Stated by `UnblockedHit`, `ClashSettles`, `ClashHealths`, `BlockerFate`, `AttackerFate` and `FightMarks`. A vanished attacker or first blocker is skipped, and only the first blocker fights. |
| CombatRules.Fights | src/server/systems.py:404-438 | Stated by `FightsMarks` and `CombatClearsAttacking`. The combat entries are fought in order, and the defender's health is carried from one to the next. |
| CombatRules.Disengage | src/server/systems.py:441-443 | Stated by `DisengageClears`. Every listed attacker that still exists loses `Attacking`. |
| CombatRules.Battle | src/server/systems.py:379-449 | Stated by `ResolvedCombatClears`, `AssignBlocksMarks` and `AssignBlocksChoice`. The combat map is built, the blocks are assigned, the damage is dealt, `Attacking` is cleared and the combat is concluded. |
| CombatRules.AttackSystem | src/server/systems.py:451-470 | The declarations of attackers run in query order, then those of blockers, and a crash stops the run. `Engine.World.Attacks` performs it in place and is proved to crash exactly when it does and otherwise to leave its world. |
| CombatRules.DeclareAttackersStep | src/server/systems.py:453-460 | The command entity is deleted whenever the loop goes on. |
| CombatRules.DeclareBlockersStep | src/server/systems.py:463-470 | The command entity is deleted whenever the loop goes on. |
| CombatRules.AttackQueue | src/server/systems.py:453 | The queue lists DeclareAttackersCommand entities with their commands. |
| CombatRules.BlockQueue | src/server/systems.py:463 | The queue lists DeclareBlockersCommand entities with their commands. |
| CombatRules.AttackersMarked | src/server/systems.py:335-353 | Declaring attackers marks exactly the eligible declared ids as `Attacking` and `Tapped`. No record and no other marker except `WaitingForBlockers` changes. |
| CombatRules.AttackMarks | src/server/systems.py:350-362 | The attackers gain `Attacking` and `Tapped`. No record changes. |
| CombatRules.EngageMarks | src/server/systems.py:350-353 | Exactly the listed attackers gain `Attacking` and `Tapped`. |
| CombatRules.NoAttackers | src/server/systems.py:343-348 | When no declared id may attack, the declaration only sends COMBAT_RESOLVED. |
| CombatRules.NoneEligible | src/server/systems.py:335-348 | Filtering ids none of which may attack keeps none. |
| CombatRules.DefenderAsked | src/server/systems.py:355-362 | With an attacker, the first other player (unless it is the id 0) alone gains `WaitingForBlockers`. |
| CombatRules.AttackSummons | src/server/systems.py:355-358 | A declaration with attackers asks the first other player, if not the id 0, for blockers. |
| CombatRules.Summoned | src/server/systems.py:355-358 | The asked player is the only new `WaitingForBlockers` holder. |
| CombatRules.AttackAnnounces | src/server/systems.py:357-362 | BLOCKERS_PHASE_STARTED lists the attackers exactly when a defender is asked. |
| CombatRules.BlockRefused | src/server/systems.py:384-399 | A refused block sends its reason and changes nothing else. |
| CombatRules.BlockMarks | src/server/systems.py:395-397 | A block keeps every record, taps only an accepted blocker, and keeps every assigned blocker a tapped card owned by the declarer. |
| CombatRules.BlockingGrows | src/server/systems.py:397 | Appending a blocker to an attacker's list makes that blocker, and nobody else, a new blocker. |
| CombatRules.BlockChoice | src/server/systems.py:381-397 | A block adds at most its own blocker, and only when the block stands. |
| CombatRules.AssignBlocksGrow | src/server/systems.py:381-397 | Blockers once assigned stay assigned. |
| CombatRules.AssignBlocksMarks | src/server/systems.py:381-399 | The assignment keeps every record and taps exactly the assigned blockers, each a card owned by the declarer. |
| CombatRules.AssignBlocksChoice | src/server/systems.py:381-399 | Every blocker added was an untapped card owned by the declarer, named in an entry whose attacker attacks. Every entry naming such a blocker is honoured. |
| CombatRules.UnblockedHit | src/server/systems.py:408-415 | An unblocked living attacker lowers the defender's health by exactly its attack and reports it. Nothing else changes. |
| CombatRules.ClashHealths | src/server/systems.py:416-432 | An attacker and its blocker each lose the other's attack. The defender's health is untouched. |
| CombatRules.AfterClash | src/server/systems.py:425-432 | After the exchange both creatures can still trade. |
| CombatRules.ClashSettles | src/server/systems.py:416-438 | A blocked fight is the exchange of damage followed by the deaths. |
| CombatRules.BlockerFate | src/server/systems.py:434-435 | A blocker at zero health or below ends in the graveyard. Otherwise its markers stay. |
| CombatRules.AttackerFate | src/server/systems.py:437-438 | An attacker at zero health or below ends in the graveyard. Otherwise its markers stay. |
| CombatRules.SettleKeeps | src/server/systems.py:434-438 | The deaths keep players and card records. |
| CombatRules.SlayKeeps | src/server/systems.py:434-438 | A death touches no record except graveyards. |
| CombatRules.SlayMarks | src/server/systems.py:434-438 | A death adds no marker except `InGraveyard` and keeps the entity table consistent. |
| CombatRules.HitMarks | src/server/systems.py:408-415 | An unblocked hit adds no marker except `InGraveyard`. |
| CombatRules.SettleMarks | src/server/systems.py:434-438 | The deaths after a clash add no marker except `InGraveyard`. |
| CombatRules.ClashMarks | src/server/systems.py:416-438 | A clash adds no marker except `InGraveyard`. |
| CombatRules.FightMarks | src/server/systems.py:404-438 | One combat entry adds no marker except `InGraveyard`. |
| CombatRules.FightsMarks | src/server/systems.py:404-438 | The damage loop adds no marker except `InGraveyard`. |
| CombatRules.DisengageClears | src/server/systems.py:441-443 | The cleanup removes `Attacking` from every listed attacker and adds no marker. |
| CombatRules.AssignBlocksTracked | src/server/systems.py:381-399 | The assignment keeps the entity table consistent with the markers. |
| CombatRules.CombatClearsAttacking | src/server/systems.py:404-443 | Combat that runs to its end leaves no entity `Attacking`. |
| CombatRules.ResolvedCombatClears | src/server/systems.py:364-445 | A resolved declaration of blockers leaves no entity `Attacking`. |
| MulliganRules.Shuffled | src/server/systems.py:559 | The shuffle is a rearrangement, and every rearrangement is a possible outcome. |
| MulliganRules.HandSet | src/server/systems.py:553 | The hand is exactly the cards the player owns that are `InHand`. |
| MulliganRules.ReturnCards | src/server/systems.py:555-558 | Returned cards go to the player's deck. |
| MulliganRules.ReturnHand | src/server/systems.py:553-558 | The hand goes back to the player's deck. |
| MulliganRules.DrawCards | src/server/systems.py:562-566 | Drawing keeps the set of decks. |
| MulliganRules.ShuffleDeck | src/server/systems.py:559 | The shuffle keeps the player's deck. |
| MulliganRules.Prepare | src/server/systems.py:548-559 | Counting, returning and shuffling keep the player's deck. |
| MulliganRules.MulliganStep | src/server/systems.py:543-572 | A player who is not deciding is skipped, and the command stays. A deciding player without a count or a deck crashes the loop. |
| MulliganRules.Decided | src/server/systems.py:569-572 | The player leaves the decision phase, MULLIGAN_STATE_CHANGED is sent, and the command entity goes. |
| MulliganRules.PutUnder | src/server/systems.py:585-587 | A card put under stays in the player's deck. |
| MulliganRules.PutBack | src/server/systems.py:583-587 | Putting back keeps the player's deck. An id that is not an entity stops the game loop (`PutBackMissing`), and so does a card in a hand without an owner. |
| MulliganRules.PutBottomStep | src/server/systems.py:575-592 | A player without a count crashes the loop. A list whose length differs from the count is skipped, and the command stays. |
| MulliganRules.KeepStep | src/server/systems.py:595-602 | MULLIGAN_STATE_CHANGED is sent and the command entity goes, in every case. |
| MulliganRules.StartGame | src/server/systems.py:523-532 | Entity 1 holds the turn, announced by TURN_STARTED. |
| MulliganRules.MulliganQueue | src/server/systems.py:543 | The queue lists MulliganCommand entities with their senders. |
| MulliganRules.PutBottomQueue | src/server/systems.py:575 | The queue lists PutCardsBottomCommand entities with their commands. |
| MulliganRules.KeepQueue | src/server/systems.py:595 | The queue lists KeepHandCommand entities with their senders. |
| MulliganRules.MulliganSystem | src/server/systems.py:535-540 | Outside the MULLIGAN phase the system changes nothing. |
| MulliganRules.ReturnCardsSound | src/server/systems.py:555-558 | Returning distinct hand cards removes each from the hand and adds one deck id per card. The deck stays sound, with no id twice and every id a card of the player in the deck. |
| MulliganRules.ReturnHandSound | src/server/systems.py:553-558 | Returning the hand empties it, keeps the deck sound, and adds one id per returned card. |
| MulliganRules.ShuffleSound | src/server/systems.py:559 | A shuffled deck holds the same ids and stays sound. |
| MulliganRules.DrawOne | src/server/systems.py:563-566 | One draw from a sound deck puts one more card in the hand and one fewer in the deck. |
| MulliganRules.DrawCardsCounts | src/server/systems.py:562-566 | Drawing k cards from a sound deck never fails. It moves min(k, deck size) cards from the deck to the hand, and the deck stays sound. |
| MulliganRules.PrepareSound | src/server/systems.py:548-559 | After counting, returning and shuffling, the hand is empty over a sound deck holding every card, and the count is one higher. |
| MulliganRules.RedrawCounts | src/server/systems.py:548-566 | A mulligan from a sound deck never fails. The count goes up by one, the hand and deck keep their total, and the hand holds seven cards (all of them when there are fewer). The deck is still sound afterwards, so a later mulligan is covered too. |
| MulliganRules.MulliganRedraws | src/server/systems.py:543-572 | The same for a deciding player's command, including that the deck stays sound. In addition the player leaves the decision phase, the change is announced, and the command entity goes. |
| MulliganRules.DecidedKeepsCards | src/server/systems.py:569-572 | Leaving the decision phase touches no card of the player and no count. |
| MulliganRules.DecidedSound | src/server/systems.py:569-572 | Leaving the decision phase, with the announcement and the deletion of a command entity that is not a card, keeps a sound deck sound. |
| MulliganRules.DeleteKeepsSound | src/server/systems.py:572 | Deleting an entity that is neither the player nor an owned card keeps the player's deck unchanged and sound. |
| MulliganRules.PutBottomMismatch | src/server/systems.py:579-580 | A list whose length differs from the mulligan count changes nothing. |
| MulliganRules.PutBackMoves | src/server/systems.py:583-587 | Putting back never fails when every listed id is an entity and every listed card in a hand has an owner. The new deck is the old deck followed by `Moved`: the movable listed ids in list order, each once. Each of them moves from the hand to the deck, a sound deck stays sound, and nothing else changes. |
| MulliganRules.Moved | src/server/systems.py:583-587 | The ids the loop appends, in order: exactly the listed ids that are in a hand and owned by the player, each at its first occurrence. |
| MulliganRules.MovedAlike | src/server/systems.py:583-587 | Two worlds with the same movable ids, once the ids already taken are set aside, pick the same ids in the same order. |
| MulliganRules.MovedAfterPut | src/server/systems.py:583-587 | A movable first id is appended first, and the rest are picked as in the world after it has moved. |
| MulliganRules.BottomedSound | src/server/systems.py:583-587 | Appending movable ids to a sound deck keeps it sound: no id twice, and every id a card of the player in the deck and not in a hand. |
| MulliganRules.OwnersStayKnown | src/server/systems.py:583-587 | After the first id is handled, every later listed card in a hand still has an owner. |
| MulliganRules.PutBottomRestores | src/server/systems.py:575-592 | A list of the right length, naming only entities, makes the deck the old deck followed by the movable ids in list order, and returns the player to the decision phase. The change is announced and the command entity goes. A sound deck stays sound when the command entity is not a card. |
| MulliganRules.KeepHandKept | src/server/systems.py:597-602 | A deciding player who keeps leaves the decision phase with `KeptHand`. |
| MulliganRules.KeepHandIgnored | src/server/systems.py:595-602 | A keep from a player who is not deciding changes no marker except the command's. |
| MulliganRules.GameStarts | src/server/systems.py:604-607 | Once the `KeptHand` holders are as many as the players, the first phase entity says GAME_RUNNING and entity 1 holds the turn. Until then nothing changes. |
| MulliganRules.StartedGameStops | src/server/systems.py:536-540 | After the start the mulligan system does nothing. |
| MulliganRules.Redraw | src/server/systems.py:548-566 | Stated by `RedrawCounts`: from a sound deck it never fails, the count goes up by one, and the hand holds seven cards, or all of them when there are fewer. |
| MulliganRules.MulliganRound | src/server/systems.py:543-607 | The mulligan commands, then the put-bottom commands, then the keep commands run, each in query order, and then the start check. A crash stops the round. The steps are stated by `MulliganRedraws`, `PutBottomRestores`, `KeepHandKept` and `GameStarts`, and `Engine.World.Mulligans` performs the loops in place. |
| MulliganRules.StartCheck | src/server/systems.py:604-607 | Stated by `GameStarts`: the game starts exactly when every player has kept a hand. |
| MulliganRules.PutBackMissing | src/server/systems.py:583-584 | A listed id that is not an entity stops the game loop, because esper's `has_component` raises for it and the loop has no handler. |
| SetupRules.DeckPlan | src/server/main.py:368-375 | The recipe has 30 lines. |
| SetupRules.InfoOf | src/server/main.py:377-387 | A template's card record has its name, cost and type. A minion also gets its attack, its health and a maximum health equal to it; other cards keep the defaults. |
| SetupRules.CreateDeck | src/server/main.py:364-398 | Creating n cards advances the counter by n and changes only the card, owner, effect, marker and entity tables. |
| SetupRules.DealDeck | src/server/main.py:331-338 | The player gets a deck, and every other deck stays. |
| SetupRules.OpeningHands | src/server/main.py:343-351 | The opening draw keeps the set of decks. |
| SetupRules.Dealt | src/server/main.py:325-338 | Both players have a deck. |
| SetupRules.DeckRecipe | src/server/main.py:368-373 | The deck is 30 cards: 15 Plains, 8 Goblins, 4 Knights and 3 Fireballs. |
| SetupRules.CreateDeckMarks | src/server/main.py:377-396 | Creating cards adds exactly the `InDeck` markers of the new entities. |
| SetupRules.CreateDeckRecords | src/server/main.py:374-398 | The i-th new entity is made from the i-th recipe line and owned by the player. |
| SetupRules.CreateDeckKeepsOlder | src/server/main.py:374-398 | Creating the cards changes neither the owner nor the card record of any older entity. |
| SetupRules.DealDeckTables | src/server/main.py:331-338 | Dealing a deck adds 30 entities and leaves older entities alike. |
| SetupRules.DealDeckSound | src/server/main.py:331-338 | The player's 30 new cards are each once in the shuffled deck and only there. The deck is sound and the hand stays empty. |
| SetupRules.SeatedShape | src/server/main.py:321-326 | After clearing, the players are entities 1 and 2 with ids 1 and 2, 30 health and a graveyard. |
| SetupRules.DrawCardsOthers | src/server/main.py:343-351 | Drawing for one player leaves the other player's hand and deck as they were. |
| SetupRules.DealtShape | src/server/main.py:321-338 | Both decks hold 30 sound cards and both hands are empty. Player 1's cards are 3 to 32 and player 2's are 33 to 62. |
| SetupRules.OpeningShape | src/server/main.py:341-355 | The opening hands are seven cards each, with 23 left in each sound deck. |
| SetupRules.NewGameReady | src/server/main.py:317-362 | A new game: two players with 30 health and no mana, seven cards in hand and a sound deck of 23, deciding with a count of zero, in the MULLIGAN phase. Every card is the one the recipe names, and the event queue is kept. |
| SetupRules.StartMulliganShape | src/server/main.py:358-361 | The phase entity is the only one and says MULLIGAN. Both players are deciding with a count of zero. |
| SetupRules.StartMulliganKeeps | src/server/main.py:357-361 | Opening the MULLIGAN phase moves no card. |
| SetupRules.CreatePlayer | src/server/main.py:321-323 | A new player is the fresh entity with the given id, 30 health, no mana and an empty graveyard. Older players, cards, decks and markers stay. |
| SetupRules.CreateCard | src/server/main.py:377-396 | Stated by `NewCard`. |
| SetupRules.NewCard | src/server/main.py:377-396 | A created card is the fresh entity. It carries the template's record and effect, is owned by the player and lies in the deck. The card and owner tables gain only that entry, and no other entity gains or loses a marker. |
| SetupRules.StartMulligan | src/server/main.py:357-361 | Stated by `StartMulliganShape` and `StartMulliganKeeps`. |
| SetupRules.NewGame | src/server/main.py:317-362 | Stated by `NewGameReady`: two players with 30 health and no mana, seven cards in hand over a sound deck of 23, deciding with a count of zero, in the MULLIGAN phase. |
| Lobby.FreeSeat | src/server/main.py:90-97 | The first DISCONNECTED seat, with every earlier seat connected. There is none exactly when every seat is connected. |
| Lobby.SeatOf | src/server/main.py:228-234 | The first seat holding a given writer. There is none exactly when no seat holds it. |
| Lobby.SessionTable.constructor | src/server/main.py:39-42 | The table starts with seats 1 and 2 disconnected, with no writer and no address. |
| Lobby.SessionTable.Connect | src/server/main.py:88-113 | A client takes the first free seat, as a reconnection exactly when the seat had an address. With no free seat it is told the game is full, and the table is unchanged. |
| Lobby.SessionTable.Disconnect | src/server/main.py:224-234 | The first seat holding the connection becomes DISCONNECTED without a writer and keeps its address. Otherwise nothing changes. |
| Lobby.ConnectKeepsPaired | src/server/main.py:109-112 | A connection keeps each seat connected exactly when it holds a writer. |
| Lobby.DisconnectKeepsPaired | src/server/main.py:228-234 | A disconnection keeps that pairing and touches only the seat left. |
| Lobby.FirstComers | src/server/main.py:90-107 | From the start, the first two clients take seats 1 and 2 as new players, and a third is turned away. |
| Lobby.ReturnIsReconnect | src/server/main.py:94-96 | A client returning to a seat it left is told it reconnected and gets the seat back. |
| Intake.Get | src/server/main.py:140 | A key is found exactly when some field has it, and the value is that field's. |
| Intake.IdOf | src/server/main.py:158-164 | A number is its own entity id. Anything other than a number or a boolean names no entity. |
| Intake.IdsOf | src/server/main.py:189-192 | A list of ids is converted element by element. |
| Intake.TargetOf | src/server/main.py:159 | An absent or null target is no target. |
| Intake.AttackerIds | src/server/main.py:189 | A list gives its ids. A number, a boolean or null cannot be iterated. |
| Intake.ParseInt | src/server/main.py:184 | Only a non-empty key parses. |
| Intake.ParseShow | src/server/main.py:183-184 | A key written with `str` reads back as the same integer. |
| Intake.Insert | src/server/main.py:184 | Adding to a dict: an existing key keeps its place and takes the new value; a new key goes last. |
| Intake.KeyInts | src/server/main.py:184 | Every key read as an integer, one per field. |
| Intake.Zip | src/server/main.py:184 | Each converted key is paired with its field's value read as an id. |
| Intake.TurnGate | src/server/main.py:146-154 | A line is refused as off-turn exactly when all of these hold: it is an object, its type is PLAY_CARD, DECLARE_ATTACKERS, END_TURN or TAP_LAND, and the sender does not hold the turn. The world is then unchanged. |
| Intake.CommandsCarrySeat | src/server/main.py:156-207 | Every command created speaks for the sender's seat, whatever the payload says. |
| Intake.MissingCardId | src/server/main.py:160-175 | PLAY_CARD and TAP_LAND without a card id create nothing. |
| Intake.PutBottomNeedsList | src/server/main.py:199-207 | PUT_CARDS_BOTTOM creates a command exactly when `card_ids` is a list. |
| Intake.BlocksConverted | src/server/main.py:180-186 | The blocks fail exactly when some key is not an integer. With distinct keys, they are the object's entries in order, each key converted. |
| Intake.BlockKeyRoundTrip | src/server/main.py:183-184 | A blocker id the client wrote as a key arrives as the same id. |
| Intake.SubmitCreates | src/server/main.py:156-207 | A created command is one new command entity, and nothing else in the world changes. |
| Intake.BlockEntries | src/server/main.py:180-186 | Stated by `BlocksConverted` and `BlockKeyRoundTrip`. |
| Intake.Build | src/server/main.py:156-207 | Stated by `CommandsCarrySeat`, `MissingCardId` and `PutBottomNeedsList`. |
| Intake.Decode | src/server/main.py:137-207 | Stated by `TurnGate` for the turn gate, and by the `Build` lemmas for the rest. Text that is not a JSON object is chat. |
| Intake.Submit | src/server/main.py:156-207 | Stated by `SubmitCreates`. |
| Views.LocationOf | src/server/main.py:445-451 | The location is the first of hand, board, deck and graveyard that holds the card, otherwise unknown. Each location holds exactly when its guard holds. |
| Views.CardIds | src/server/main.py:538-541 | The snapshot's cards are exactly the entities with a card record and an owner, in query order. |
| Views.CardsView | src/server/main.py:538-541 | The cards map has exactly those keys. |
| Views.Listed | src/server/main.py:517-518 | The hand and board lists hold exactly the cards with that owner id and location. |
| Views.ListedIncreasing | src/server/main.py:517-518 | Those lists keep the query order. |
| Views.PhaseOf | src/server/main.py:546-549 | The phase is none exactly without a phase entity, otherwise the first phase entity's phase. |
| Views.ActivePlayerId | src/server/main.py:498-502 | The active id is none exactly when no player holds the turn, otherwise the player id of a turn holder. |
| Views.Redaction | src/server/main.py:480-496 | A card is hidden from a viewer exactly when it is in a hand the viewer does not own. A hidden card shows only its owner and the hand. |
| Views.HiddenRevealsNothing | src/server/main.py:490-491 | A hidden card's view does not depend on its record or its other markers. |
| Views.CanAttackRule | src/server/main.py:463-477 | A visible minion can attack exactly when it is neither tapped nor sick. No other visible card can. |
| Views.SummaryContents | src/server/main.py:511-521 | A summary lists exactly the player's hand and board cards in order, with health and mana, and counts the deck and graveyard (zero without one). |
| Views.MulliganEntry | src/server/main.py:522-531 | Outside MULLIGAN there is no entry. Inside it the entry is WAITING when kept, DECIDING when deciding, otherwise PUT_BOTTOM with the count; a player with none of these cannot be summarised. |
| Views.SeatsMatchIds | src/server/main.py:511-518 | With player entities 1 and 2 carrying ids 1 and 2, the players part has exactly the keys 1 and 2. Each summary's hand holds exactly the cards with a record that the player entity owns and that are in a hand. |
| Views.TwoSeatList | src/server/main.py:511 | With player entities 1 and 2 the query gives them in that order. |
| Views.VisibleCard | src/server/main.py:453-477 | A shown card carries its owner, its location, and the name, cost and type of its record. `can_attack` is true exactly for a minion that is neither tapped nor sick, and false for every other shown card. |
| Views.CardViewOf | src/server/main.py:480-496 | Stated by `Redaction`, `HiddenRevealsNothing` and `CanAttackRule`. |
| Views.MulliganOf | src/server/main.py:522-531 | Outside the MULLIGAN phase there is no entry. The summary fails exactly in the MULLIGAN phase for a player without `KeptHand`, without `MulliganDecisionPhase` and without a count. |
| Views.PlayerViewOf | src/server/main.py:510-531 | Stated by `SummaryContents` and `MulliganEntry`. |
| Views.PlayersView | src/server/main.py:510-532 | Stated by `PlayersViewDefined` and `SeatsMatchIds`. |
| Views.PlayersViewDefined | src/server/main.py:510-532 | The players part exists exactly when every listed player can be summarised. Its keys are then exactly the listed players' ids. |
| Views.SnapshotFor | src/server/main.py:534-557 | Stated by `SnapshotShape`. |
| Views.SnapshotShape | src/server/main.py:534-557 | A snapshot exists exactly when every player can be summarised. Its players part is keyed by the player ids, and its cards part by exactly the cards with a record and an owner. A card is hidden exactly when it is in a hand the viewer does not own. The snapshot also holds the active player's id and the phase. |
| Broadcast.AllInformationalMeans | src/server/main.py:277-279 | "Informational only" holds exactly when every event is ACTION_ERROR. |
| Broadcast.AnyPhaseEndMeans | src/server/main.py:280-282 | "Phase end" holds exactly when some event is COMBAT_RESOLVED or BLOCKERS_PHASE_STARTED. |
| Broadcast.AnyGameOverMeans | src/server/main.py:283 | "Game over" holds exactly when some event is GAME_OVER. |
| Broadcast.SnapshotDecision | src/server/main.py:289-294 | Snapshots follow exactly when some event is not ACTION_ERROR and no event is COMBAT_RESOLVED, BLOCKERS_PHASE_STARTED or GAME_OVER. |
| Broadcast.Recipients | src/server/main.py:53-57 | The recipients are exactly the CONNECTED seats with a writer, in table order. |
| Broadcast.CopiesReach | src/server/main.py:59-63 | A broadcast reaches each recipient once and nobody else. |
| Broadcast.FanoutReach | src/server/main.py:285-287 | Every recipient hears every event in queue order, and no other seat hears any. |
| Broadcast.SnapshotsReach | src/server/main.py:296-302 | Each live seat gets its own snapshot while snapshots can be built. The loop stops at the first that fails. |
| Broadcast.QuietTick | src/server/main.py:263 | An empty queue sends nothing and changes nothing. |
| Broadcast.FlushDelivers | src/server/main.py:263-302 | The queue is emptied and nothing else changes. Each live seat receives every event in order, and the snapshots go out exactly when the decision allows. |
| Broadcast.ErrorsOnlyNoSnapshot | src/server/main.py:270-279 | A tick of ACTION_ERRORs only sends no snapshot. |
| Broadcast.LiveIsConnected | src/server/main.py:53-57 | With paired seats, the recipients are exactly the CONNECTED seats. |
| Broadcast.Fanout | src/server/main.py:285-287 | Stated by `FanoutReach`. |
| Broadcast.Snapshots | src/server/main.py:296-302 | Stated by `SnapshotsReach`. |
| Broadcast.Flush | src/server/main.py:263-302 | Stated by `FlushDelivers`, `QuietTick` and `ErrorsOnlyNoSnapshot`. |
| Engine.World.constructor | src/server/main.py:428 | The world starts as a freshly set-up game with an empty event queue. |
| Engine.World.Push | src/server/systems.py:42-43 | Appending to the queue changes nothing else. |
| Engine.World.Delete | src/server/systems.py:179 | The entity and every component it carries are removed in place. |
| Engine.World.TapOne | src/server/systems.py:484-513 | One tap command updates the world in place exactly as the tap step does. |
| Engine.World.TapLands | src/server/systems.py:483-513 | The tap system's loop leaves the world the tap rules describe. |
| Engine.World.PlayCards | src/server/systems.py:138-179 | The play loop crashes exactly when the play rules do, and otherwise leaves their world. |
| Engine.World.Attacks | src/server/systems.py:451-470 | The attack loops crash exactly when the combat rules do, and otherwise leave their world. |
| Engine.World.EndTurns | src/server/systems.py:189-205 | The turn loop crashes exactly when the turn rules do, and otherwise leaves their world. |
| Engine.World.KeepOne | src/server/systems.py:595-602 | One keep command updates the world as the keep step does. |
| Engine.World.Start | src/server/systems.py:523-532 | The start of the game updates the world as `StartGame` does. |
| Engine.World.Mulligans | src/server/systems.py:535-607 | The mulligan system crashes exactly when its rules do, and otherwise leaves their world. |
| Engine.World.Redraws | src/server/systems.py:543-572 | The mulligan loop matches its rules. |
| Engine.World.PutBottoms | src/server/systems.py:575-592 | The put-bottom loop matches its rules. |
| Engine.World.Keeps | src/server/systems.py:595-602 | The keep loop matches its rules. |
| Engine.World.RunSystems | src/server/main.py:419-425 | The processors after the latch, in registration order, crash exactly when the rules do, and otherwise leave their world. |
| Engine.World.Tick | src/server/main.py:256-260 | One tick's latch and world are those of the tick step. |
| Engine.QuietTick | src/server/main.py:419-425 | A world with an idle latch, no commands, no game over and past MULLIGAN is unchanged by a tick. |
| Engine.LatchedGamePlaysOn | src/server/main.py:418-425 | While a finished game waits for its reset, the other processors still run exactly as in a game that is not over. |
| Engine.Systems | src/server/main.py:419-425 | The processors after the latch, in registration order. A crash ends the tick. `Engine.World.RunSystems` performs them in place. |
| Engine.TickStep | src/server/main.py:256-260 | One `esper.process()`: the latch, then the other processors. It is stated by `Engine.QuietTick` and `Engine.LatchedGamePlaysOn`, and `Engine.World.Tick` performs it in place. |
| ManaFinding.AsWrittenPlayer | src/server/main.py:325-326 | As written, a new player's pool is the default `ManaPool` record with every counter at zero. |
| ManaFinding.CorrectedPlayer | src/server/main.py:325-326 | As intended, the pool is the integer zero. |
| ManaFinding.AddOne | src/server/systems.py:503 | `+= 1` succeeds exactly on an integer pool and adds one. |
| ManaFinding.Below | src/server/systems.py:160 | `< cost` succeeds exactly on an integer pool and compares it with the cost. |
| ManaFinding.Dumps | src/server/main.py:516 | `json.dumps` of the pool a snapshot carries succeeds exactly on an integer, which is written unchanged. |
| ManaFinding.Greet | src/server/main.py:120-127 | A newly seated client always gets ASSIGN_PLAYER_ID first. It gets FULL_STATE_UPDATE and has its lines read exactly when every player's pool can be encoded. |
| ManaFinding.AsWrittenPoolBreaks | src/server/main.py:325-326 | As written, a fresh player's pool cannot be JSON-encoded, so a client connecting to the set-up game receives ASSIGN_PLAYER_ID and nothing more, and none of its lines is read. Past that, the first land tap and the first affordability check both raise. |
| ManaFinding.CorrectedPoolWorks | src/server/systems.py:503 | With the integer pool, the snapshot encodes and a connecting client is greeted and read. The first tap gives exactly one mana, and exactly cards of positive cost are unaffordable. |
| ManaFinding.TapTimesAdds | src/server/systems.py:503 | From an integer pool, k taps add exactly k. From the record, any tap fails. |

## Left out

- Socket I/O, `asyncio`, write timeouts, logging and `print` are not modelled. A connection is an opaque handle and an address is a string.
- Chat relaying (`src/server/main.py:208-220`) is left out. The intake only says a line is chat.
- JSON encoding and decoding are not modelled. A decoded line is given as a `Json` value with integer numbers only, and floats are left out. The one encoding failure the model keeps is that of the mana pool record (`ManaFinding.Dumps`).
- `int()` on a blocker key accepts only an optional sign and decimal digits. Whitespace and underscores, which Python also accepts, are left out.
- Intake.IdOf: a payload value that is not a number or a boolean stands for the id no entity has (-1). For a string this matches the server, whose lookups raise a `KeyError` that the systems catch and report. A list or an object as an id is different in the server: it cannot be hashed, so the lookups at `src/server/systems.py:103`, `:148`, `:337`, `:384` and `:492` raise a `TypeError`, which no system catches, and the game loop stops. The model instead refuses such a command with an ACTION_ERROR or skips the id, as for -1. A list or an object inside `card_ids` (PUT_CARDS_BOTTOM) is not affected: -1 is not an entity, and `PutBack` stops the loop for it, as the server does.
- The clock is left out. `GameOverSystem` receives whether the reset delay has elapsed as a parameter, and the tick rate and sleeping are not modelled.
- `random.shuffle` is a parameter, a shuffler. Any rearrangement it proposes is used.
- Query order is ascending entity id. For the two players and the command entities this matches esper's behaviour in every world the server builds. For other component sets it is an assumption.
- `has_component` on an id that is not an entity raises a `KeyError` in esper. The only call that can meet such an id outside a handler is the put-bottom loop (`src/server/systems.py:584`), and `MulliganRules.PutBack` makes it stop the game loop (`MulliganRules.PutBackMissing`). Every other `has_component` call in the core asks about a seat or a player from the player list, which are entities in every world the server builds, or about an id whose existence was just checked or just looked up. So the model's reading of a missing entity as "no such component" is never used where esper would raise.
- SetupRules: `setup_new_game` and `create_deck_for_player` are modelled as functions on the world value. The creation and draw loops are recursive functions, and set-up only runs before a tick or inside the game-over reset.
- Engine.World: each command loop updates the world in place one command at a time. The effect of one command is computed by the rule function and assigned to the single `state` field. Field-by-field updates inside a command are not modelled.
- GameOverRules.GameOverSystem.Process: states the tick by the latch step. The reset callback is `setup_new_game` as modelled in `SetupRules.NewGame`.
- Crashed: when a system crashes, the partly updated world is not modelled, because the game loop stops.
- Components.CardInfo: `cost` is declared as a `Dict[str, int]` with an empty-dict default (src/common/components.py:25). The model keeps a plain integer with no default, because every card the server builds (src/server/main.py:368-378) is given an integer cost and every rule system compares and subtracts it as one. The dict default is not modelled.
- Components.NewPlayer: the pool is the integer 0 that every rule system expects, not the `ManaPool()` record the record's default gives (see Findings).
- `ReturnToLobbyCommand` and `PlayerReadyCommand` have no processor in the server, so they are only command records.
- The client (`src/client/`) is not part of this model.

## Findings

| source | as written | input that shows it | evidently intended | confidence | as-written member | corrected member |
|---|---|---|---|---|---|---|
| src/server/main.py:325-326 | The players are built without `mana_pool`, so the field takes the `ManaPool()` record (src/common/components.py:20). Every snapshot carries that record (src/server/main.py:516), and `json.dumps` raises TypeError on it. `send_to_one` catches only connection errors (src/server/main.py:73-80). So the first FULL_STATE_UPDATE sent to a newly seated client (src/server/main.py:123-124) raises before the handler's `try` at src/server/main.py:127. No line of that client is ever read, and the `finally` that frees the seat never runs. The game loop then sees no command and sends no snapshot. The `+= 1` at src/server/systems.py:503 and the `< cost` at src/server/systems.py:160 would raise TypeError too, but only once serialisation is fixed. | Any client connecting to a freshly set-up server. | The pool is the integer 0, as the turn system sets it (src/server/systems.py:249). | not executed | ManaFinding.AsWrittenPoolBreaks | ManaFinding.CorrectedPoolWorks |
