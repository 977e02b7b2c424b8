# sdn_server match logic in Dafny

A model of the match logic in `object/games` of the sdn_server game server. The server
owns each match: a room of up to three player slots, each player's deck and energy, and
the units and projectiles on the board. A player's connection sends commands. The
game's tick loop, at 60 ticks per second, advances the match and broadcasts its state.
Everything here is sequential: the lock in the source serialises commands and ticks, so
each command (`Games.Game.Receive`) and each tick (`Games.Game.Tick`) is one atomic step.

The model follows the source's own form:

- **Card** (`card.dfy`, module `Cards`). A card is a value. The source's deck is an
  `[8]Card` array of values, so `AddCost`/`SubCost` are functions that return the
  updated card, and the deck loops reassign the slots in place. The catalog is
  `CardList`. The admission and placement rule is `Usable`/`Placeable`.
- **Player** (`player.dfy`, module `Players`). A class whose methods update its fields.
  It covers energy, the deck-set parser, the play-order rotation, the roster record and
  the length-prefixed frame.
- **Unit** (`unit.dfy`, module `Units`). One class with a `kind` tag for the ten
  variants. It covers damage and heal, poisoning, the Note and Bag subsidies, the Flask
  timer, the cooldown counters and the 34-byte record. The per-kind constants live in
  `entities.dfy`.
- **Thrower** (`projectile.dfy`, module `Projectiles`). The projectile the cards place.
  The module also holds the projectile sweep as pure functions.
- **Game** (`game.dfy`, module `Games`). A class holding the slot array, status, frame
  budget, object ids, unit and projectile lists, and spawn queue. `broadcasts` and
  `sends` log what went out. `Broadcast` goes to the counted slots; a send goes to one
  player.
  - Join, Left, Start, End, Spawn and the per-message dispatch are methods.
  - Each step of the tick loop is a method, and `Tick` composes them.
  - Each loop is proved against pure specification functions in `session.dfy`
    (slots, spawn drain, regeneration, verdicts), `sweep.dfy` (unit sweep) and
    `tick.dfy` (heartbeat, packets, unit frames).
- **Wire encoding** (`bytes.dfy`). Go's fixed-width unsigned arithmetic and
  `encoding/binary` big-endian layouts.

Where the source panics (an index out of range, a nil player), the model returns an
explicit outcome: `Panicked`, `crashed`, or `None`. Where the source loops forever, the
outcome is `Spins`. The state after a crash is not specified further, since the process
dies there. There are three exceptions. The first is the panic after a dead Earth ends
the match during the unit sweep: that is a bug in the source, and the tick follows the
corrected path (see Findings). The second is the panic when an ownerless attacker looks
for a target, which depends on target state the model does not keep (see Left out). The
third is the panic when an ownerless Dictionary takes damage: its override of
`GetDamage` (unit.go:593-597) first runs its heal magic through its owner, and the
magic is not part of this model (see Left out).

## Code over documentation

The documented behaviour of the server differs from its code in several places. The
model follows the code in each case.

- **The overcost ledger.** The description says paying drains overcost first and
  refunding first raises overcost. The code does the opposite: `SubCost` turns the part
  that `cost` cannot cover into overcost, and `AddCost` pays overcost down first.
- **The play order.** The description says the next playable card is at `order[0]`. In
  the code, slots 0 to 3 are the hand and slot 4 is the front of the queue.
- **Start's energy.** The description says Start gives every player full energy. The
  code gives energy 5 with a maximum of 10.
- **How a match ends.** The description names only the team-2 and time-out outcomes. The
  code also ends the match when Earth dies, and that path panics (see Findings).
- **The heartbeat.** The description says it runs every 60th tick. The code sends the
  first heartbeat on tick 61 and then one every 60 ticks (`Ticks.HeartbeatCountsDown`).
- **Reading commands.** The description says the reader decodes length-prefixed frames.
  The code dispatches on the raw bytes of one `Read`, so `Receive` takes the receive
  buffer and the byte count.

## Model

| member | source | states |
|---|---|---|
| Cards.Card.AddCost | object/games/card.go:62-72 | A refund pays overcost down first and raises cost only by the remainder. When overcost exceeds k, cost is unchanged and the net price rises by exactly k. Otherwise overcost ends at 0 and, without wrap, the net price rises by k. A balanced ledger stays balanced. No other field changes. |
| Cards.Card.SubCost | object/games/card.go:74-82 | A charge larger than cost leaves cost 0 and adds the shortfall to overcost. Otherwise cost drops by k and overcost is unchanged. Balance is kept. No other field changes. |
| Cards.Card.Data | object/games/card.go:84-89 | 6 bytes that read back as the big-endian uint32 id followed by the big-endian uint16 cost. |
| Cards.CardList | object/games/card.go:91-103 | The 11-entry catalog: entry i has id i and no overcost, and entry 0 is the zero-value card. |
| Cards.CardFlask | object/games/card.go:105-117 | Defines the catalog entry for Flask: id 1, cost 5, footprint-checked, one Flask unit. `Cards.CardList` states the catalog as a whole. |
| Cards.CardNote | object/games/card.go:118-130 | Defines the catalog entry for Note: id 2, cost 7, footprint-checked, one Note unit with a subsidy of 1. `Cards.CardList` states the catalog as a whole. |
| Cards.CardBigPencil | object/games/card.go:131-143 | Defines the catalog entry for BigPencil: id 3, cost 5, footprint-checked, one BigPencil unit. `Cards.CardList` states the catalog as a whole. |
| Cards.CardPaint | object/games/card.go:144-154 | Defines the catalog entry for Paint: id 4, cost 3, no footprint, one thrower at height 3 with heal magic. `Cards.CardList` states the catalog as a whole. |
| Cards.CardErasers | object/games/card.go:155-171 | Defines the catalog entry for Erasers: id 5, cost 2, no footprint, three throwers at heights 3, 4 and 5 with damage magic. `Cards.CardList` states the catalog as a whole. |
| Cards.CardSharpener | object/games/card.go:172-184 | Defines the catalog entry for Sharpener: id 6, cost 6, footprint-checked, one Sharpener unit. `Cards.CardList` states the catalog as a whole. |
| Cards.CardBag | object/games/card.go:185-197 | Defines the catalog entry for Bag: id 7, cost 4, footprint-checked, one Bag unit with a bonus of 1. `Cards.CardList` states the catalog as a whole. |
| Cards.CardAlarm | object/games/card.go:198-210 | Defines the catalog entry for Alarm: id 8, cost 2, footprint-checked, one Alarm unit. `Cards.CardList` states the catalog as a whole. |
| Cards.CardDictionary | object/games/card.go:211-223 | Defines the catalog entry for Dictionary: id 9, cost 8, footprint-checked, one Dictionary unit. `Cards.CardList` states the catalog as a whole. |
| Cards.CardPaintBrush | object/games/card.go:224-235 | Defines the catalog entry for PaintBrush: id 10, cost 3, footprint-checked, one PaintBrush unit. `Cards.CardList` states the catalog as a whole. |
| Cards.ZonesMeetOnlyAtEdges | object/games/card.go:33-47 | For a footprint-checked card, team 0 and team 1 can both place it at x only on the edge of team 0's zone. |
| Cards.SubThenAddRestores | object/games/card.go:62-82 | On a balanced card without overflow, charging k and then refunding k gives back the same card. |
| Cards.AddThenSubRestores | object/games/card.go:62-82 | On a balanced card without overflow, refunding k and then charging k gives back the same card. |
| Cards.LedgerIsSignedCounter | object/games/card.go:62-82 | Any non-overflowing sequence of refunds and charges keeps the card balanced. Cost and overcost end as the positive and negative parts of the initial net price plus refunds minus charges. |
| Games.Game.UseCard | object/games/card.go:29-60 | The card is admitted exactly when it is affordable and placeable for the player's team at x. If admitted, one placement per spawn-list entry is queued in order; if not, the queue is unchanged. |
| Games.Placements | object/games/card.go:49-58 | One queue entry per spawn-list entry, in order. Each has the player as owner, position (x, 0), the given delay and that entry's recipe. |
| Cards.Card.Placeable | object/games/card.go:33-47 | Defines the placement rule; `ZonesMeetOnlyAtEdges` states how the two teams' zones meet. |
| Cards.Card.Usable | object/games/card.go:30-47 | Defines admission as affordable and placeable; `Games.Game.UseCard` queues placements exactly when it holds. |
| Bytes.ToInt16 | object/games/player.go:85 | The int16 conversion of the x field: the value lies in [-32768, 32767] and wraps back to the uint16 that was read. |
| Players.Player.constructor | object/games/player.go:30-35 | PlayerSet: every field at its zero value. The deck is 8 id-0 cards and the order is all zeros. |
| Players.Player.GetEnergy | object/games/player.go:200-206 | Energy becomes the uint16 sum clamped to maxEnergy, and that value is returned. Energy never ends above maxEnergy. Without wrap, an addition below the maximum is exact. |
| Players.Player.SubCostAll | object/games/unit.go:245-248 | Note's subsidy: each of the 8 deck slots is charged k, in place. |
| Players.Player.AddCostAll | object/games/unit.go:265-268 | The subsidy's reversal: each deck slot is refunded k, in place. |
| Players.SubsidyRoundTrip | object/games/unit.go:243-269 | On a balanced deck, charging every slot and then refunding every slot restores the deck exactly. |
| Players.Player.SetDeck | object/games/player.go:149-160 | Succeeds exactly when the payload parses and every id is in the catalog; the deck is then the parsed deck. The failure cases are where the source panics: a trailing partial id, any id (zero included) after eight non-zero ids, or an id outside the catalog. |
| Players.ParseIds | object/games/player.go:151-157 | The id loop: consecutive big-endian uint32 ids, a zero id overwritten by the next one, and failure exactly where the source panics. |
| Players.DeckFor | object/games/player.go:149-160 | The deck a payload yields: 8 cards, each from the catalog; None where SetDeck panics. |
| Players.ParseEncoded | object/games/player.go:151-157 | On any encoding of at most 8 ids, the parser yields the slots already filled, then the non-zero ids in order, then zeros. |
| Players.ParsedSlots | object/games/player.go:151-157 | An encoded id list parses to its non-zero ids followed by zero slots. |
| Players.DeckSetRoundTrip | object/games/player.go:149-160 | Encoding up to 8 catalog ids and setting the deck from them fills the first slots with the catalog cards of the non-zero ids, in order, and the rest with the id-0 card. |
| Players.Player.RotateOrder | object/games/player.go:97-109 | The order after a successful play of hand slot `slot`, and whether the source loops forever, are exactly `Rotate`'s. |
| Players.Player.ShiftQueue | object/games/player.go:100-103 | The inner loop: slots 5 to 7 move one place forward and the given card goes last. |
| Players.Shifted | object/games/player.go:100-103 | Slot by slot: the hand is kept, the queue moves forward, and the given index lands in slot 7. |
| Players.Spin | object/games/player.go:99-108 | The queue turning until a non-empty card is at its front, with a bound on the turns. The result is still an order of deck indices. |
| Players.Rotate | object/games/player.go:97-109 | The whole rotation after a play. Its result is still an order of deck indices. |
| Players.ShiftedMultiset | object/games/player.go:100-103 | One shift removes the slot-4 entry and adds the given one, as multisets. |
| Players.SpinPermutes | object/games/player.go:99-108 | Turning the queue permutes the order. |
| Players.SpinKeepsHand | object/games/player.go:99-108 | Turning the queue leaves slots 0 to 3 alone and, unless the turns run out, stops at a non-empty front card. |
| Players.RotatePermutes | object/games/player.go:97-109 | The rotation keeps `order` a permutation of what it was. |
| Players.RotateKeepsHand | object/games/player.go:97-109 | The hand slots other than the played one are unchanged. When the rotation acts, the played slot receives the old queue front. |
| Players.RotateExit | object/games/player.go:97-109 | An empty queue-front card leaves the order untouched. Otherwise the rotation exits with a non-empty card at the front, unless the source would spin. |
| Players.RotateSpinsIff | object/games/player.go:99-108 | The source loops forever exactly when the queue front is non-empty but the three cards behind it and the played card are all empty. |
| Players.Player.Data | object/games/player.go:168-188 | 23 bytes: the id reads back big-endian, then the team byte, then the name cut or zero-padded to 20 bytes. |
| Players.NameField | object/games/player.go:175-185 | Always exactly 20 bytes. |
| Players.Frame | object/games/player.go:190-193 | A frame is the 2-byte length followed by the payload. For payloads under 64 KiB, unframing gives the payload back. |
| Players.ChatPacket | object/games/player.go:133-135 | Opcode 2, then the name, then ": ", then the text, each at its offset. |
| Games.Game.Receive | object/games/player.go:55-122 | One message, by opcode. A command not admitted in the current status is ignored and changes nothing. A one-byte message whose opcode reads byte 1 panics. Join sets the name without its last byte. Change-team rejects teams above 2. Chat either starts the match (text "/start") or broadcasts the chat packet. Use-card with a hand slot of 8 or more panics; otherwise it is PlayCard. Deck-set is SetDeck. A ping reply with no probe outstanding panics; otherwise it takes the oldest probe as the ping. Each command that succeeds leaves everything it does not set as it was: the game, the other players and the sender's other fields. |
| Games.Game.PlayCard | object/games/player.go:84-110 | If the card is admitted, energy drops by its cost without underflow, its placements are queued with the latency delay, and the order rotates as `Rotate`. If not, nothing changes. |
| Games.Game.ReceiveRoom | object/games/player.go:62-81 | Join, change-team and chat, as `Receive` states them, each with what it leaves unchanged. |
| Games.Game.ReceiveMatch | object/games/player.go:82-122 | Use-card, deck-set and the ping reply, as `Receive` states them, each with what it leaves unchanged. |
| Games.Admits | object/games/player.go:61-81 | Defines the status gating: join, change-team, chat and deck-set only outside a match, use-card only in one, ping always; `Games.Game.Receive` ignores any command it rejects. |
| Games.TruncDiv | object/games/player.go:90 | Go's integer division rounds toward zero: the remainder a - r * b has the sign of the dividend and is smaller than the divisor. |
| Games.WaitFrame | object/games/player.go:90 | Defines the delay in uint8 arithmetic; `WaitFrameCompensates`, `WaitFrameWraps` and `WaitFrameNegativePing` state its behaviour. |
| Games.WaitFrameCompensates | object/games/player.go:90 | Below 1.35 s of latency, the delay is 80 frames less the latency in whole frames. |
| Games.WaitFrameWraps | object/games/player.go:90 | At 1.35 s the uint8 subtraction wraps, and the delay jumps from 0 to 255 frames. |
| Games.WaitFrameNegativePing | object/games/player.go:90 | A negative latency lengthens the delay past 80 frames. |
| Units.Unit.constructor | object/games/unit.go:172-185 | NewEarth and the other unit constructors: full health for the kind, no poison, not yet bound or visible. Earth starts at x = -3 and Flask with its 300-frame timer. |
| Entities.TypeId | object/games/unit.go:172-627 | Defines a per-kind constant of the unit constructors: The wire type id of each kind, 0 to 9. |
| Entities.MaxHealth | object/games/unit.go:172-627 | Defines a per-kind constant of the unit constructors: The full health of each kind. |
| Entities.Width | object/games/unit.go:172-627 | Defines a per-kind constant of the unit constructors: The width of each kind, which centres a placement. |
| Entities.Height | object/games/unit.go:172-627 | Defines a per-kind constant of the unit constructors: The height of each kind. |
| Entities.MaxCooltime | object/games/unit.go:172-627 | Defines a per-kind constant of the unit constructors: The reload time of BigPencil (120), Sharpener (60) and PaintBrush (30); zero for the rest. |
| Entities.Faces | object/games/unit.go:172-627 | Defines a per-kind constant of the unit constructors: The kinds whose Run turns them to face the other side. |
| Units.Unit.GetDamage | object/games/unit.go:58-75 | Damage from the unit's own team does nothing. Team 2 adds to poison, in uint32, and leaves health alone. Any other team lowers health by d, stopping at 0, and a team-2 unit's poison follows its health. Health never rises, and the team-2 mirror is kept. |
| Units.Unit.GetHeal | object/games/unit.go:77-89 | Only the unit's own team heals. Health becomes the uint32 sum capped at the kind's maximum, exact when it does not wrap, so health ends at or below the maximum. A team-2 unit's poison follows its health. |
| Units.Unit.Run | object/games/unit.go:107-116 | The unit is bound to owner, id and team and made visible, and team 2 mirrors poison to health. Note charges its subsidy on the owner's deck (unit.go:243-249). Bag raises maxEnergy in uint16 (292-295). BigPencil, Sharpener and PaintBrush face the other side, and BigPencil and PaintBrush go to height 0.5. |
| Units.Unit.Poisoned | object/games/unit.go:95-99 | The unit passes to slot 2's player on team 2, with poison equal to health. Note moves its subsidy and Bag its bonus from the old owner to the new one, in both orders and also when the two are the same player (unit.go:251-261, 297-301). It crashes exactly when the source dereferences a nil player. |
| Units.Unit.Death | object/games/unit.go:125-132 | The removal packet for the unit's id. Note refunds its subsidy and Bag withdraws its bonus from the current owner (unit.go:263-269, 303-306). It crashes exactly when the owner is nil. |
| Units.Unit.Frame | object/games/unit.go:118-123 | A unit more than 80 from the centre on either axis drops to 0 health. Flask's timer counts down and at zero grants its owner one energy and restarts (unit.go:213-220). A cooldown unit fires only at a zero counter while engaged, reloads, and counts down (unit.go:412-429). It crashes exactly when it has no owner and the frame reaches through the owner: a due Flask grant, any Alarm frame (unit.go:564-569), or a BigPencil or Sharpener shot (unit.go:417-419, 523). |
| Units.ReachesOwner | object/games/unit.go:213-569 | Defines when a frame dereferences the owner: a due Flask grant, every Alarm frame, and a BigPencil or Sharpener shot. |
| Units.Unit.IsPoisoned | object/games/unit.go:91-93 | Defines poisoned as health at or below poison. |
| Units.Unit.IsDead | object/games/unit.go:134-136 | Defines dead as zero health. |
| Units.Unit.Status | object/games/unit.go:156-162 | Bit 0 is set exactly when the unit is reversed; no other bit is set. |
| Units.Unit.Data | object/games/unit.go:138-154 | Empty exactly when the unit is invisible; otherwise 34 bytes. |
| Units.UnitDataFields | object/games/unit.go:138-154 | Every field of a visible unit's record reads back from its offset: id, typeid, team, x and y bits, health, maxHealth, poison and status. |
| Units.RemovedPacket | object/games/unit.go:126-129 | 3 bytes: opcode 6, then the id, which reads back. |
| Units.FlaskGrantsFrom | object/games/unit.go:213-220 | From a timer at t, n frames grant nothing before frame t and then one energy per 300 frames. |
| Units.FlaskGrantsEveryPeriod | object/games/unit.go:208-219 | A fresh Flask grants exactly n / 300 energy in n frames. |
| Units.FlaskStep | object/games/unit.go:213-220 | A timer started in 1..300 stays in 1..300, and a grant always restarts the full 300-frame period. |
| Units.Fires | object/games/unit.go:412-429 | One firing flag per frame. |
| Units.CoolStep | object/games/unit.go:412-429 | A unit whose counter is still running never fires, and firing needs a target and leaves the counter one below the reload time. |
| Units.CoolingHolds | object/games/unit.go:427-429 | While the counter is c, none of the next c frames fires, whatever the engagement. |
| Units.CooldownSpacing | object/games/unit.go:412-429 | Any two firings are at least the reload time apart. |
| Units.FiresPeriodically | object/games/unit.go:412-429 | Engaged in every frame, a unit whose counter starts at c fires in frame c and then exactly every reload period. |
| Units.BagBonusRoundTrip | object/games/unit.go:292-306 | Adding and later withdrawing the bonus in uint16, in either order, gives back the original maxEnergy. |
| Units.NoteSelfTransferRestores | object/games/unit.go:251-261 | Poisoning a Note already owned by slot 2's player leaves that player's balanced deck as it was. |
| Units.ConvertedStaysPoisoned | object/games/unit.go:91-99 | A converted unit that keeps its mirror is poisoned. The sweep's team test is what stops a second conversion. |
| Projectiles.Projectile.constructor | object/games/projectile.go:94-100 | NewThrower: the given height, type and magic, unbound and unused. |
| Projectiles.Projectile.Run | object/games/projectile.go:102-105 | Bound to owner, id and team, not used, at its own height (projectile.go:46-52). |
| Projectiles.Projectile.Frame | object/games/projectile.go:107-112 | One step of the fall. |
| Projectiles.Projectile.Death | object/games/projectile.go:78-87 | The removal packet for its id. It crashes exactly when the owner is nil. |
| Projectiles.Projectile.Data | object/games/projectile.go:66-76 | The 29-byte record; what each field reads back as is stated by `Projectiles.ProjectileDataFields`. |
| Projectiles.ProjectileDataFields | object/games/projectile.go:66-76 | The fields read back: id, typeid, team + 3 in uint8, x and y bits, and an all-zero angle. |
| Projectiles.FallLands | object/games/projectile.go:107-112 | n frames after placement at height h, the thrower is n steps lower. It is used from the first frame that brings it to the ground. |
| Projectiles.Fall | object/games/projectile.go:107-112 | One step always lowers the thrower, and once used it stays used. |
| Projectiles.CrashFrom | object/games/game.go:305-312 | The first used projectile without an owner, which is where the sweep crashes. |
| Projectiles.LeftTo | object/games/game.go:305-312 | The projectiles kept, in order; never more than were looked at. |
| Projectiles.SpentTo | object/games/game.go:305-312 | One removal packet per used projectile, in order. |
| Projectiles.LeftExactly | object/games/game.go:305-312 | A projectile is kept exactly when it was among those looked at and was not used. |
| Projectiles.ShotsAccount | object/games/game.go:305-312 | Every projectile looked at is either kept or announced as removed. |
| Projectiles.ShotRemoveStep | object/games/game.go:307-311 | Splicing out a used projectile with `i--` moves the sweep on by one and announces it. |
| Projectiles.ShotKeepStep | object/games/game.go:305-312 | An unused projectile stays, and the sweep moves on. |
| Session.FirstNull | object/games/game.go:72-77 | The first empty slot, with every slot before it occupied. |
| Session.Seated | object/games/game.go:72-77 | Join's slot scan keeps the number of slots. |
| Session.JoinKeepsPrefix | object/games/game.go:69-79 | With fewer than three counted players, joining keeps the counted slots and fills the next one. |
| Session.LeftStep | object/games/game.go:87-92 | One pass of Left's scan; it only moves or clears players that were there. |
| Session.LeftScan | object/games/game.go:86-93 | The whole scan keeps the slot count and introduces no one. |
| Session.LeftKeepsPrefix | object/games/game.go:84-95 | After the scan, the counted slots less one are still occupied, whoever leaves. |
| Session.LeftExact | object/games/game.go:86-93 | The exact result for a player seated once: its right neighbour is copied into its slot and stays in its own, or the last counted slot is cleared. |
| Session.LeftRemovesOnlyNearTheEnd | object/games/game.go:86-93 | Left removes exactly the leaving player, keeping the others in order, if and only if that player sat in one of the last two counted slots or those two slots hold the same player. |
| Session.LeftQuirk | object/games/game.go:86-93 | When the first of three players leaves, the slots become [b, b, c]. |
| Session.KeptTo | object/games/game.go:230-270 | The entries the drain keeps, one frame closer, in order. |
| Session.DueTo | object/games/game.go:230-270 | The entries the drain places, in order. |
| Session.DrainPartitions | object/games/game.go:230-270 | Every entry looked at is either placed, when its delay is 0, or kept, one frame closer. |
| Session.DrainEmpties | object/games/game.go:230-270 | When every delay is below n, the queue is empty after n drains. |
| Session.DrainWaitStep | object/games/game.go:232-233 | Counting a waiting entry down in place moves the drain on by one. |
| Session.DrainPlaceStep | object/games/game.go:258-259 | Splicing a due entry out with `i--` moves the drain on by one and adds it to the placed entries. |
| Session.PlacedTo | object/games/game.go:257 | One id per placed entry. |
| Session.PlacedIds | object/games/game.go:241-257 | The k-th placement is the k-th due entry, with id base + k in uint16. |
| Session.PlacedIdsDistinct | object/games/game.go:257 | While a drain places at most 65536 entries, its placements get distinct ids. |
| Session.PlacementsPartition | object/games/game.go:238-251 | Every placement builds exactly one unit or one thrower. |
| Session.SpawnedPacket | object/games/game.go:261-266 | 17 bytes with opcode 8. |
| Session.SpawnedPacketFields | object/games/game.go:261-266 | The x and y bit patterns read back from their offsets. |
| Session.NoticesFollowPlacements | object/games/game.go:261-268 | One notice per placed entry, to its owner, in placement order. |
| Session.RegenBounded | object/games/game.go:315-329 | Regeneration never fills a player past the maximum. |
| Session.RegenCountsDown | object/games/game.go:315-329 | At speed 1 with a fresh timer, nothing is gained for 119 frames, then exactly one energy at frame 120 with the timer fresh again. |
| Session.RegenStep | object/games/game.go:317-328 | A step gains at most one energy, only below the maximum, and a grant restarts the timer at 120. |
| Session.Verdict | object/games/game.go:377-385 | End(2) is announced if and only if every unit the sweep saw was on team 2. End(0) is announced if and only if the count reached 0. |
| Session.Wrap64 | object/games/game.go:375 | Go's uint decrement; exact within range. |
| Session.SpliceOut | object/games/game.go:298 | `append(s[:i], s[i+1:]...)` succeeds exactly when i + 1 is within the slice. The result is one element shorter, keeps the elements before i, and moves every later element one place forward. |
| Session.EarthDeathPanicsSweep | object/games/game.go:296-299 | As written, removing a dead Earth always panics, at any index; removing any other dead unit succeeds. |
| Session.SweepRemovalAsWritten | object/games/game.go:296-299 | Defines the as-written removal step, in which Earth's Death first empties the list; `EarthDeathPanicsSweep` states its outcome. |
| Sweeps.FateOf | object/games/game.go:291-303 | A unit is removed exactly when it is dead with an owner; an Earth removal ends the match. It is converted only when it is not on team 2 and its poison has reached its health. It is kept exactly when it is alive and either on team 2 or healthy. |
| Sweeps.StopFrom | object/games/game.go:291-303 | The first unit at which the sweep halts: a crash or a fallen Earth. |
| Sweeps.SurvivorsTo | object/games/game.go:291-303 | The units the sweep keeps, in order. |
| Sweeps.RemovalsTo | object/games/game.go:296-298 | One removal packet per removed unit, in order. |
| Sweeps.AllPoisonedMeans | object/games/game.go:289-295 | The sweep's flag is true if and only if every unit seen was on team 2. |
| Sweeps.SweepAccounts | object/games/game.go:291-303 | Every unit seen is either kept or announced as removed. |
| Sweeps.SurvivorsExactly | object/games/game.go:296-302 | A unit is kept exactly when it was seen and its fate is not removal. |
| Sweeps.SurvivorsDistinct | object/games/game.go:291-303 | The kept units of a list without repeats have no repeats. |
| Sweeps.ConvertedSurvive | object/games/game.go:300-302 | Converted units stay in the list. |
| Sweeps.SweepRemoveStep | object/games/game.go:296-299 | Splicing out a dead unit with `i--` moves the sweep on by one and announces it. |
| Sweeps.SweptVitals | object/games/game.go:300-302 | Defines a unit's owner, team, poison and health after the sweep: a conversion gives slot 2's player, team 2 and poison equal to health; any other fate leaves them as they were. |
| Sweeps.Settled | object/games/game.go:291-303 | Defines the sweep's effect on the units: the first j read as `SweptVitals` of what they were, the rest as they were. |
| Sweeps.SettledPasses | object/games/game.go:300-303 | A unit that is not converted is passed with its fields as they were. |
| Sweeps.SweptUnits | object/games/game.go:291-303 | Defines the sweep's effect on every unit up to where it stops. |
| Sweeps.SweepLeavesNoneDue | object/games/game.go:291-303 | After a sweep that does not halt, every kept unit is alive and is on team 2 or has more health than poison: none is left due for removal or conversion, so a unit is converted at most once. |
| Sweeps.SweepConverts | object/games/game.go:300-302 | Every unit the sweep converts before it stops belongs to slot 2's player, on team 2, with poison equal to its health, and stays in the list. |
| Sweeps.SweepKeepStep | object/games/game.go:300-302 | A living unit, whether converted or not, stays, and the sweep moves on. |
| Ticks.HeartbeatCountsDown | object/games/game.go:201-213 | From a countdown at s, the first heartbeat goes out on tick s + 1 and leaves the countdown at 59. |
| Ticks.Repeat | object/games/game.go:207-209 | n copies of the timestamp. |
| Ticks.HeartbeatStep | object/games/game.go:206-213 | A countdown in 0..59 stays in 0..59, and a heartbeat always restarts it at 59. |
| Ticks.RosterDatas | object/games/game.go:219-221 | Each counted slot's 23-byte record. |
| Ticks.RosterLayout | object/games/game.go:215-223 | The roster packet has 1 + 23n bytes, with the k-th player's record at byte 1 + 23k. |
| Ticks.Advance | object/games/game.go:281-283 | One unit frame leaves the kind and owner alone. |
| Ticks.StarveFrom | object/games/game.go:281-283 | The first unit whose frame crashes, given whether each unit is engaged: an ownerless unit whose frame reaches through its owner (a due Flask, an Alarm, a firing BigPencil or Sharpener). |
| Ticks.Engagements | object/games/game.go:281-283 | The engagement of each unit, in list order. |
| Ticks.StatusSends | object/games/game.go:332-360 | One 65-byte status packet per counted slot, to that slot's player, in slot order. |
| Ticks.DeckBytes | object/games/game.go:355-357 | 6 bytes per card. |
| Ticks.DeckBytesAt | object/games/game.go:355-357 | The k-th card's record sits at bytes 6k to 6k + 6. |
| Ticks.StatusPacket | object/games/game.go:333-357 | 65 bytes. |
| Ticks.StatusFields | object/games/game.go:333-357 | Every field reads back from its offset: opcode 3, id, energy, maximum, frame / 60 in uint16, the 8 order bytes, and each card's record. |
| Ticks.UnitDatas | object/games/game.go:366-368 | Each unit's record, in list order. |
| Ticks.ProjectileDatas | object/games/game.go:369-371 | Each projectile's record, in list order. |
| Ticks.BoardLayout | object/games/game.go:362-373 | The board packet has 1 + 34 bytes per visible unit + 29 bytes per projectile, with the k-th projectile's record at its offset after the units. |
| Ticks.UnitRecordEmpty | object/games/unit.go:139-141 | A unit's board record is empty exactly when the unit is invisible. |
| Games.Game.constructor | object/games/game.go:44-66 | NewGame: three empty slots, in the room, with nothing on the board and nothing sent. |
| Games.Game.Broadcast | object/games/game.go:164-169 | The payload is appended to the broadcast log. |
| Games.Game.Join | object/games/game.go:69-79 | The new player takes the first empty slot, and the count rises by one in any case. With fewer than three players, the invariant is kept. |
| Games.Game.Left | object/games/game.go:84-95 | The slots become Left's scan over the counted slots, and the count drops by one. The counted slots stay occupied. |
| Games.Game.ResetCounted | object/games/game.go:125-132 | Every counted player gets order 0..7, energy 5, timer 120 and maximum 10. |
| Games.Game.Begin | object/games/game.go:133-143 | Slot 0's Earth (id 0, full health, visible, at x = -3) is the only unit. Speed is 1, the match is active with 10800 frames, object ids restart at 1, and [1] is broadcast. |
| Games.Game.Start | object/games/game.go:102-146 | All of ResetCounted and Begin. It crashes exactly when slot 0 is empty. |
| Games.Game.End | object/games/game.go:148-162 | The board is cleared, the status returns to the room, and [7, team] is broadcast. |
| Games.Game.Spawn | object/games/game.go:171-173 | The entry is appended to the queue. |
| Games.Game.Place | object/games/game.go:235-268 | A due entry builds its unit or thrower, new, at the end of its list, bound to the owner with the next object id and centred on x. The owner is sent the place. |
| Games.Game.PlaceUnit | object/games/game.go:239-245 | The new unit is appended, centred and run. |
| Games.Game.PlaceThrower | object/games/game.go:246-251 | The new thrower is appended, placed and run. |
| Games.Game.PlaceCounted | object/games/game.go:235-257 | Exactly one unit or one thrower is added, new and owned by the entry's owner. One id and one notice are used. The made-so-far facts (`UnitsMade`, `ThrowersMade`) extend past the entry. |
| Games.Game.UnitsMade | object/games/game.go:238-245 | Defines what the drain has made of the first j entries: each due unit recipe's unit sits after the units made before it, with the recipe's kind, the owner and its team, the centred position and the id `base` plus the number of due entries before it. |
| Games.Game.ThrowersMade | object/games/game.go:246-251 | Defines the same for the thrower recipes and the thrower list. |
| Games.Game.UnitsGrow | object/games/game.go:238-245 | Appending the unit made from a due entry keeps every unit made before it where it was, and extends `UnitsMade` by the entry. |
| Games.Game.ThrowersGrow | object/games/game.go:246-251 | Appending the thrower made from a due entry extends `ThrowersMade` by the entry. |
| Games.Game.MadeFurther | object/games/game.go:232-233 | An entry still waiting makes nothing, so the made-so-far facts extend past it unchanged. |
| Session.PlacementsFromQueue | object/games/game.go:234-251 | Every unit and thrower placement comes from an entry of the queue. |
| Games.Game.DrainWaitAt | object/games/game.go:232-233 | The loop at a waiting entry keeps the drain's progress invariant and what has been made. |
| Games.Game.DrainPlaceAt | object/games/game.go:234-269 | The loop at a due entry keeps the drain's progress invariant, and the entry's unit or thrower is made. |
| Games.Game.SpliceAt | object/games/game.go:258-259 | The splice and `i--` advance the queue to the drain's next progress. |
| Games.Game.DrainAt | object/games/game.go:230-270 | One pass of the drain loop keeps its invariant. New units are fresh and owned by queue owners. |
| Games.Game.DrainSpawns | object/games/game.go:229-270 | The queue becomes the kept entries, and the object id advances by the number placed. The new units and throwers are fresh, one per unit or thrower placement, in queue order, and each is made from its entry (`UnitsMade`, `ThrowersMade`): its kind or recipe, its owner and that owner's team, its place (a unit centred on x) and the id `base` plus the number of due entries before its entry. The notices go out in order, and every new unit's owner had a queued entry. |
| Games.Game.SweepStep | object/games/game.go:291-303 | One pass of the unit sweep follows `FateOf`. A dead Earth ends the match with team 1's win. A conversion passes the unit to slot 2 on team 2; every unit passed reads as `SweptVitals` of what it was. |
| Games.Game.SweepDead | object/games/game.go:296-299 | A dead owned unit is announced and leaves the list; the sweep halts exactly at an Earth, which ends the match with team 1's win. |
| Games.Game.SweepLiving | object/games/game.go:300-303 | A living unit is converted or kept; the sweep halts only at a crash, exactly where `FateOf` says the conversion dereferences an absent owner. |
| Games.Game.SweepRemove | object/games/game.go:296-299 | A dead unit's Death is broadcast and the unit is spliced out. |
| Games.Game.SweepDeath | object/games/game.go:297 | The removal packet is appended to the broadcasts. |
| Games.Game.SpliceUnit | object/games/game.go:298-299 | The splice and `i--` advance the list to the sweep's next progress. |
| Games.Game.SweepEarth | object/games/game.go:296-297 | The corrected Earth path: its removal is broadcast and the match ends with team 1's win, and nothing is spliced afterwards. |
| Games.Game.SweepConvert | object/games/game.go:300-301 | A poisoned unit not on team 2 passes to slot 2's player on team 2, with poison equal to health. |
| Games.Game.SweepKeep | object/games/game.go:291-303 | Any other living unit leaves the sweep's state as it is. |
| Games.Game.SweepIter | object/games/game.go:291-303 | One pass of the sweep loop keeps its invariant. |
| Games.Game.SweepRun | object/games/game.go:291-303 | The sweep loop ends in `SweepDone` and `SweptUnits`. |
| Games.Game.SweepUnits | object/games/game.go:289-303 | `SweepDone`: without a halt, exactly the dead units leave, in order, and their removals are broadcast. The sweep stops at the first crash or fallen Earth. The flag says whether every unit seen was on team 2. `SweptUnits`: every unit the sweep passed reads as `SweptVitals` of what it was, so a converted unit belongs to slot 2's player on team 2 with poison equal to its health, and every other unit keeps its owner, team, poison and health. |
| Games.Game.Heartbeat | object/games/game.go:205-213 | The countdown steps. When it has run out, [5] is broadcast and every counted player is stamped once per slot. |
| Games.Game.Stamp | object/games/game.go:207-209 | Each counted player's send times gain `now` once per counted slot it sits in. |
| Games.Game.StampSlot | object/games/game.go:208 | Stamping slot i extends the invariant to i + 1 slots. |
| Games.Game.BroadcastRoster | object/games/game.go:215-223 | The roster packet of the counted players is broadcast. |
| Games.Game.RosterData | object/games/game.go:215-221 | The packet built by the loop is [0] followed by the records. |
| Games.Game.UnitFrames | object/games/game.go:281-283 | Up to the first crashing unit, each unit's clock is advanced exactly once: health outside the arena, Flask timer, and cooldown. It crashes exactly when some ownerless unit's frame reaches through its owner. |
| Games.Game.FrameAt | object/games/game.go:282 | Running one unit's frame extends the invariant by one unit. |
| Games.Game.ProjectileFrames | object/games/game.go:285-287 | Every thrower falls exactly one step. |
| Games.Game.SweepProjectiles | object/games/game.go:305-312 | It crashes exactly when a used projectile has no owner. Otherwise exactly the unused projectiles stay, in order, and one removal per used projectile is broadcast. |
| Games.Game.ShotIter | object/games/game.go:306-311 | One pass of the projectile sweep crashes exactly at a fatal projectile; otherwise it keeps the invariant. |
| Games.Game.ShotSplice | object/games/game.go:308-310 | Broadcasting and splicing out a used projectile keeps the invariant. |
| Games.Game.RegenEnergy | object/games/game.go:315-329 | Each counted player takes one regeneration step per counted slot it sits in. |
| Games.Game.RegenSlot | object/games/game.go:316-328 | Regenerating slot i extends the invariant to i + 1 slots. |
| Games.Game.RegenOne | object/games/game.go:317-328 | One regeneration step: below the maximum, the timer drops in uint16, and at zero the player gains one energy and the timer restarts at 120. |
| Games.Game.SendStatus | object/games/game.go:332-360 | One status packet per counted slot, sent to that slot's player in slot order. |
| Games.Game.BroadcastBoard | object/games/game.go:362-373 | The board packet of the units and projectiles is broadcast. |
| Games.Game.BoardData | object/games/game.go:362-371 | [4], then the units' records, then the projectiles' records. |
| Games.Game.UnitBytes | object/games/game.go:366-368 | The units' records, back to back. |
| Games.Game.ProjectileBytes | object/games/game.go:369-371 | The projectiles' records, back to back. |
| Games.Game.Conclude | object/games/game.go:375-385 | The frame count drops by one in uint, and the verdicts are broadcast. A verdict clears the board and returns to the room; otherwise the board is unchanged. |
| Games.Game.Tick | object/games/game.go:203-387 | In the room, only the heartbeat and the roster go out. In an active match without a crash, the frame count drops by one. The invariant is kept. |
| Games.Game.Beat | object/games/game.go:205-223 | The heartbeat countdown steps. The heartbeat packet, if due, then the roster packet, go out, and when the heartbeat is due every counted player is stamped with `now` once per slot. |
| Games.Game.Play | object/games/game.go:228-386 | The active part of a tick keeps the invariant and counts the frame down unless it crashes. |
| Games.Game.Move | object/games/game.go:229-287 | The drain and the frames keep the invariant and bring in only new units. |
| Games.Game.Arrive | object/games/game.go:229-270 | The drain brings in only new units and throwers, owned by queue owners. |
| Games.Game.Frames | object/games/game.go:281-287 | The frames keep every unit's owner among the tick's players. |
| Games.Game.Resolve | object/games/game.go:289-385 | From the unit sweep on, the invariant is kept and the frame counts down unless a step crashes. |
| Games.Game.Cull | object/games/game.go:289-303 | The unit sweep keeps the invariant. |
| Games.Game.Settle | object/games/game.go:305-385 | From the projectile sweep on, the invariant is kept and the frame counts down unless a step crashes. |
| Games.Game.Report | object/games/game.go:315-385 | From regeneration on, the frame counts down by one. |
| Games.Game.Publish | object/games/game.go:362-385 | The board, then the end of the tick; the frame counts down by one. |

## Left out

- **Concurrency.** The mutex, the goroutines and the 60 Hz ticker are not modelled. Each
  message and each tick is one atomic step.
- **Connection lifecycle.** Socket I/O and `log` calls are not modelled. A broadcast or
  a send is appended to the `broadcasts` or `sends` log. The 2-byte wire frame that
  `Send` puts around each payload is `Players.Frame`, but it is not applied inside the
  logs. Read errors, `Close` and the deferred `Left` are not modelled; `Receive` handles
  one message.
- **Clock and float encoding.** `time.Now` is the `now` parameter of `Receive` and
  `Tick`. `math.Float64bits` is the `bits` parameter. float64 coordinates are `real`,
  used only for comparisons, the centring offset and the fall. No IEEE rounding is
  modelled.
- **Spatial index.** The quadtree, `Game.Collision`, target acquisition and the
  detection rectangles are not modelled. Whether a cooldown unit holds a live enemy
  target (for PaintBrush, a live ally) in a frame is the `engaged` parameter of `Tick`.
- **Unit movement.** BigPencil and PaintBrush walk 0.01 or 0.03 per frame while they
  have no target (unit.go:406-410, 677-681). This depends on the spatial index and is
  not modelled: their position stays put.
- **Effects of firing.** BigPencil's and Alarm's damage magic, PaintBrush's heal of its
  target, and Dictionary's heal magic on taking damage (unit.go:415-421, 567-568,
  593-598, 686) act through the spatial index or on another unit and are not modelled.
  Sharpener's shot queues a Bullet placement (unit.go:516-529); the model records that
  it fired but queues nothing.
- **Other projectiles.** Bullet and Crayon (projectile.go:114-164) and magic.go are not
  part of this model. Only the Thrower, the projectile the cards place, is modelled, and
  its magic is carried as an inert value. Projectile `Death`'s `magic.Run`
  (projectile.go:79-81) is not modelled.
- **Owner's game.** `Death` broadcasts through `owner.game`. The model assumes that is
  the game running the sweep.
- **Recipe construction time.** A card's spawn functions build the object when the card
  is used. The model queues a recipe and builds the object when the entry falls due; no
  observable behaviour differs.
- **Unused fields.** Game `id`/`playID`, `rand.Seed`, the `isStatic`/`isNoAI` flags,
  `Collision`/`HitBox`/`Team` getters and `SetTarget` are not modelled.
- **Regeneration guard.** The `< 0` guard on the unsigned timer (game.go:319) can never
  hold. It is modelled as written: uint16 subtraction through `Wrap16`, with no
  separate branch.
- **State after a crash.** After a crash, the state is specified only by the invariant,
  or not at all, because the Go process dies there.
- Games.Game.Tick: states the room case, the invariant and the frame countdown. The
  active tick's other effects are stated by the step methods it composes (`DrainSpawns`,
  `UnitFrames`, `ProjectileFrames`, `SweepUnits`, `SweepProjectiles`, `RegenEnergy`,
  `SendStatus`, `BroadcastBoard`, `Conclude`) but are not restated in Tick's own
  contract. Composing them would push the proof past the solver's budget.
- Games.Game.Play: states only the invariant and the frame countdown, for the same
  reason.
- Games.Game.Move: states only the invariant, unit ownership and that new units are
  fresh.
- Games.Game.Arrive: states only the invariant, ownership and freshness; the drain
  itself is stated by `DrainSpawns`.
- Games.Game.Frames: states only that unit owners stay among the tick's players; the
  frames are stated by `UnitFrames` and `ProjectileFrames`.
- Games.Game.Resolve: states only the invariant and the frame countdown.
- Games.Game.Cull: states only the invariant; the sweep is stated by `SweepUnits`.
- Games.Game.Settle: states only the invariant and the frame countdown.
- Games.Game.Report: states only the invariant and the frame countdown; its steps are
  stated by `RegenEnergy`, `SendStatus`, `BroadcastBoard` and `Conclude`.
- Games.Game.Publish: states only the invariant and the frame countdown.
- Games.Game.UnitFrames: states each unit's clock after its frame. The owners' energy
  after the Flask grants is stated per unit by `Units.Unit.Frame`, not as a total.
- Games.Game.Join: with three players already seated, the count passes the slot array
  and the invariant is not re-established. The server only joins games with fewer than
  three players.
- Players.Player.RotateOrder: where the source loops forever, the model stops after one
  full turn of the queue and reports `Spins`.
- Units.Unit.constructor: cites NewEarth; the other constructors (unit.go:198-627)
  differ only in the per-kind constants in `entities.dfy`.
- Units.Unit.Frame: an ownerless BigPencil or PaintBrush with no target, and an
  ownerless Sharpener with no target at a zero counter, panic when they look for a target
  (unit.go:392, 500, 663). Whether a unit holds a target is not kept by the model, so
  these panics are not in the crash condition.
- Ticks.StarveFrom: the first crashing unit it names leaves out the target-search panics
  of ownerless units (unit.go:392, 500, 663), for the same reason as `Units.Unit.Frame`.
- Games.Game.FrameAt: its crash condition leaves out the same target-search panics.
- Games.Game.UnitFrames: its crash condition leaves out the same target-search panics.
- Units.Unit.GetDamage: models the base method (unit.go:58-75). Dictionary's override
  (unit.go:593-597) first runs its heal magic through its owner, which panics when the
  owner is absent; the magic is not part of this model, so that panic is not modelled.
- Games.Game.DrainSpawns: the Note and Bag subsidies that `Units.Unit.Run` applies to a
  new unit's owner (deck costs and maximum energy) are stated per unit by `Run`, not in
  the drain's contract.
- Games.Game.SweepStep: at a dead Earth, it follows the corrected path (Findings). The
  source panics there (game.go:298); the model ends the match and halts the sweep without
  a crash.
- Games.Game.SweepUnits: at a dead Earth, it halts without a crash, following the
  corrected path, where the source panics. The owners' deck and maximum energy after a
  Note's or Bag's Death or conversion are stated per unit by `Units.Unit.Death` and
  `Units.Unit.Poisoned`, not in the sweep's contract.
- Sweeps.SweepAccounts: classifies a fallen Earth as a halt, not a crash, following the
  corrected path.
- Games.Game.Tick: a tick whose sweep reaches a dead Earth ends the match with team 1's
  win and carries on, following the corrected path, where the source panics.
- **Out of scope.** The ORM code under `ent/` and the TCP listener in `main.go` are not
  part of this model.

## Findings

| source | as written | input that shows it | evidently intended | confidence | as-written member | corrected member |
|---|---|---|---|---|---|---|
| object/games/game.go:296-299 | A dead Earth's Death calls End(1) (unit.go:187-190), which replaces the unit list with an empty one. The sweep then splices `g.units[i+1:]` out of that empty list, which is out of range and panics. | An active match in which Earth has 0 health when the unit sweep reaches it, at any index. | The match ends with team 1's win and the tick carries on without splicing. | not executed | Session.EarthDeathPanicsSweep | Games.Game.SweepEarth |
