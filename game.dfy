/** A match: the three player slots, the Room/Active status, the spawn queue, the
    unit and projectile lists and the per-tick bookkeeping (object/games/game.go),
    together with the input dispatch of a player's connection (object/games/player.go). */
module Games {
  import opened Bytes
  import opened Entities
  import opened Cards
  import opened Players
  import opened Units
  import opened Session
  import opened Sweeps
  import opened Projectiles
  import opened Ticks

  /** Frames of an active match: three minutes at 60 frames per second. */
  const MatchFrames: u64 := 10800

  /** The outcome of one message from a player's connection. */
  datatype Reply =
    | Done
    | Ignored
    | Panicked   // the source panics: an index or slice out of range, or a missing ping
    | Spins      // the source loops forever in the play-order rotation

  /** The play order Start gives every counted player. */
  const Identity: seq<u8> := [0, 1, 2, 3, 4, 5, 6, 7]

  /** The chat text that starts the match. */
  const StartCommand: seq<u8> := [47, 115, 116, 97, 114, 116]

  class Game {
    const players: array<Player?>
    var playerCount: int
    var status: u8
    var frame: u64
    var energySpeed: u16
    var objID: u16
    var units: seq<Unit>
    var projectiles: seq<Projectile>
    var spawner: seq<Spawn>
    /** The heartbeat countdown, a local of the source's tick loop. */
    var second: int
    /** Every payload Broadcast sent, in order; each went to the counted slots
        [0, playerCount) of the moment. */
    var broadcasts: seq<seq<u8>>
    /** Every payload sent to one player alone, in order. */
    var sends: seq<(Player, seq<u8>)>

    /** Slot, count and status bounds; the counted slots are occupied; the unit and
        projectile lists each hold distinct objects. */
    ghost predicate Valid()
      reads this`playerCount, this`status, this`units, this`projectiles, players
    {
      players.Length == Slots && playerCount <= Slots && (status == Room || status == Active)
      && (forall i | 0 <= i < playerCount :: players[i] != null)
      && Distinct(units) && Distinct(projectiles)
    }

    /** NewGame: three empty slots, in the room, nothing on the board. */
    constructor ()
      ensures Valid() && fresh(players)
      ensures players[..] == [null, null, null] && playerCount == 0 && status == Room
      ensures units == [] && projectiles == [] && spawner == [] && broadcasts == [] && sends == []
      ensures second == HeartbeatFrames
    {
      players := new Player?[3](_ => null);
      playerCount, status, frame, energySpeed, objID := 0, Room, 0, 0, 0;
      units, projectiles, spawner := [], [], [];
      second := HeartbeatFrames;
      broadcasts, sends := [], [];
    }

    /** The players of the counted slots. */
    function Counted(): (r: seq<Player?>)
      requires Valid()
      reads this`playerCount, this`status, this`units, this`projectiles, players
      ensures |r| == if playerCount < 0 then 0 else playerCount
      ensures forall i | 0 <= i < |r| :: r[i] == players[i] && r[i] != null
    {
      players[..if playerCount < 0 then 0 else playerCount]
    }

    method Broadcast(data: seq<u8>)
      modifies this`broadcasts
      ensures broadcasts == old(broadcasts) + [data]
    {
      broadcasts := broadcasts + [data];
    }

    /** Join: a new player takes the first empty slot, if there is one, and the count
        goes up by one in any case. The session code joins only games with fewer than
        three players; a fourth join would leave the count past the slots. */
    method Join() returns (p: Player)
      requires Valid()
      modifies this`playerCount, players
      ensures fresh(p)
      ensures players[..] == Seated(old(players[..]), p)
      ensures playerCount == old(playerCount) + 1
      ensures old(playerCount) < Slots ==> Valid()
    {
      p := new Player();
      if playerCount < Slots {
        JoinKeepsPrefix(players[..], p, if playerCount < 0 then 0 else playerCount);
      }
      for i := 0 to Slots
        invariant players[..] == old(players[..])
        invariant forall k | 0 <= k < i :: players[k] != null
      {
        if players[i] == null {
          players[i] := p;
          break;
        }
      }
      playerCount := playerCount + 1;
    }

    /** Left: the scan over the counted slots, then the count goes down by one. */
    method Left(p: Player)
      requires Valid()
      modifies players, this`playerCount
      ensures Valid()
      ensures players[..] == LeftScan(old(players[..]), p, if old(playerCount) < 0 then 0 else old(playerCount))
      ensures playerCount == old(playerCount) - 1
    {
      var n := if playerCount < 0 then 0 else playerCount;
      var i := 0;
      while i < n
        invariant 0 <= i <= n <= Slots == players.Length
        invariant players[..] == LeftScan(old(players[..]), p, i)
        invariant playerCount == old(playerCount)
      {
        if i > 0 && players[i - 1] == null {
          players[i - 1] := players[i];
        }
        if players[i] == p {
          players[i] := null;
        }
        i := i + 1;
      }
      LeftKeepsPrefix(old(players[..]), p, n, n);
      playerCount := playerCount - 1;
    }

    /** The players of the counted slots, as a set. */
    /** The players other than p whose fields a received command may change. */
    function Bystanders(p: Player): set<Player>
      reads this`playerCount, players
    {
      set q: Player | q in CountedSet() + Host() && q != p
    }

    /** The player in slot 0, which starts the match. */
    function Host(): set<Player>
      reads players
    {
      if 0 < players.Length then Present(players[0]) else {}
    }

    function CountedSet(): set<Player?>
      reads this`playerCount, players
    {
      set i | 0 <= i < playerCount && i < players.Length :: players[i]
    }

    /** Start's loop over the counted slots. */
    method ResetCounted()
      requires Valid()
      modifies CountedSet()`order, CountedSet()`energy, CountedSet()`energyTime
      modifies CountedSet()`maxEnergy
      ensures forall i | 0 <= i < playerCount ::
        players[i].order == Identity && players[i].energy == 5
        && players[i].energyTime == RegenPeriod && players[i].maxEnergy == 10
    {
      var n := if playerCount < 0 then 0 else playerCount;
      for i := 0 to n
        invariant forall k | 0 <= k < i ::
          players[k].order == Identity && players[k].energy == 5
          && players[k].energyTime == RegenPeriod && players[k].maxEnergy == 10
      {
        var q := players[i];
        q.order := Identity;
        q.energy := 5;
        q.energyTime := RegenPeriod;
        q.maxEnergy := 10;
      }
    }

    /** The rest of Start once slot 0 is known to hold a player. */
    method Begin(first: Player)
      requires Valid()
      modifies this`units, this`energySpeed, this`status, this`frame, this`objID
      modifies this`broadcasts, first`deck, first`maxEnergy
      ensures Valid() && |units| == 1 && fresh(units[0])
      ensures first.deck == old(first.deck) && first.maxEnergy == old(first.maxEnergy)
      ensures units[0].kind == Earth && units[0].owner == first && units[0].id == 0
        && units[0].team == first.team && units[0].health == MaxHealth(Earth)
        && units[0].isVisible && units[0].x == -3.0
      ensures energySpeed == 1 && status == Active && frame == MatchFrames && objID == 1
        && broadcasts == old(broadcasts) + [[1]]
    {
      var earth := new Unit(Earth);
      earth.Run(first, 0);
      units := [earth];
      energySpeed, status, frame, objID := 1, Active, MatchFrames, 1;
      Broadcast([1]);
    }

    /** Start: every counted player gets the identity play order and a fresh energy
        budget; the Earth of the player in slot 0 becomes the only unit; the match
        becomes active with the full frame budget and object ids restart at 1.
        `crashed` where slot 0 is empty and the source dereferences it. */
    method Start() returns (crashed: bool)
      requires Valid()
      modifies this`units, this`energySpeed, this`status, this`frame, this`objID
      modifies this`broadcasts
      modifies CountedSet()`order, CountedSet()`energy, CountedSet()`energyTime
      modifies CountedSet()`maxEnergy, Present(players[0])`deck, Present(players[0])`maxEnergy
      ensures crashed <==> old(players[0]) == null
      ensures !crashed ==> Valid() && |units| == 1 && fresh(units[0])
      ensures !crashed ==> forall i | 0 <= i < playerCount ::
        players[i].order == Identity && players[i].energy == 5
        && players[i].energyTime == RegenPeriod && players[i].maxEnergy == 10
      ensures !crashed ==> players[0].deck == old(players[0].deck)
      ensures !crashed ==>
        units[0].kind == Earth && units[0].owner == players[0] && units[0].id == 0
        && units[0].team == players[0].team && units[0].health == MaxHealth(Earth)
        && units[0].isVisible && units[0].x == -3.0
      ensures !crashed ==>
        energySpeed == 1 && status == Active && frame == MatchFrames && objID == 1
        && broadcasts == old(broadcasts) + [[1]]
    {
      ResetCounted();
      if players[0] == null {
        return true;
      }
      Begin(players[0]);
      crashed := false;
    }

    /** The use-card branch after its guards: play the card in hand slot `slot` at x
        with the player's latency-derived delay; on admission pay its cost and rotate
        the play order. `Spins` where the rotation never ends. */
    method PlayCard(p: Player, slot: u8, x: int) returns (reply: Reply)
      requires Valid() && slot < 8
      modifies this`spawner, p`energy, p`order
      ensures Valid() && (reply == Done || reply == Spins)
      ensures var card := old(p.deck[p.order[slot]]);
              var ok := card.Usable(old(p.energy), p.team, x);
              (ok ==>
                 p.energy == old(p.energy) - card.cost
                 && spawner == old(spawner) + Placements(card, p, x, WaitFrame(p.ping))
                 && (p.order, reply == Spins) == Rotate(old(p.order), slot as nat, Ids(p.deck)))
              && (!ok ==>
                 p.energy == old(p.energy) && p.order == old(p.order)
                 && spawner == old(spawner) && reply == Done)
    {
      var card := p.deck[p.order[slot]];
      var ok := UseCard(card, p, p.energy, x, WaitFrame(p.ping));
      if ok {
        p.energy := p.energy - card.cost;
        var spins := p.RotateOrder(slot as nat);
        reply := if spins then Spins else Done;
      } else {
        reply := Done;
      }
    }

    /** ConnHandler, one received message. `buf` is the connection's 4096-byte receive
        buffer whose first n bytes were just read (the rest holds earlier bytes); `now`
        is the clock in nanoseconds. Byte 0 selects the command; join, team, chat and
        deck-set are taken only in the room, use-card only in an active match, the ping
        reply always. */
    method Receive(p: Player, buf: seq<u8>, n: int, now: int) returns (reply: Reply)
      requires Valid() && |buf| == 4096 && 0 <= n <= |buf|
      modifies this`spawner, this`broadcasts, this`units, this`energySpeed, this`status
      modifies this`frame, this`objID
      modifies p`name, p`team, p`deck, p`order, p`energy, p`ping, p`lastTime
      modifies CountedSet()`order, CountedSet()`energy, CountedSet()`energyTime
      modifies CountedSet()`maxEnergy, Present(players[0])`deck, Present(players[0])`maxEnergy
      ensures reply != Panicked ==> Valid()
      ensures n == 0 || !Admits(buf[0], old(status)) ==> reply == Ignored
      ensures reply == Ignored ==> unchanged(this) && unchanged(p) && unchanged(CountedSet())
      ensures n == 1 && Admits(buf[0], old(status)) && buf[0] <= 3 ==> reply == Panicked
      ensures n >= 2 && buf[0] == 0 && old(status) == Room ==>
        reply == Done && p.name == buf[1..n - 1]
      ensures n >= 2 && buf[0] == 1 && old(status) == Room ==>
        if buf[1] > 2 then reply == Ignored else reply == Done && p.team == buf[1]
      ensures n >= 2 && buf[0] == 2 && old(status) == Room && buf[1..n - 1] != StartCommand ==>
        reply == Done && broadcasts == old(broadcasts) + [ChatPacket(p.name, buf[1..n - 1])]
      ensures n >= 2 && buf[0] == 2 && old(status) == Room && buf[1..n - 1] == StartCommand ==>
        (reply == Panicked <==> old(players[0]) == null)
        && (reply == Done ==>
              status == Active && frame == MatchFrames && |units| == 1
              && units[0].kind == Earth && broadcasts == old(broadcasts) + [[1]])
      ensures n >= 2 && buf[0] == 3 && old(status) == Active && buf[1] >= 8 ==> reply == Panicked
      ensures n >= 2 && buf[0] == 3 && old(status) == Active && buf[1] < 8 ==>
        var card := old(p.deck[p.order[buf[1]]]);
        var x := ToInt16(Read16(buf[2..4]));
        if card.Usable(old(p.energy), p.team, x) then
          p.energy == old(p.energy) - card.cost
          && spawner == old(spawner) + Placements(card, p, x, WaitFrame(p.ping))
          && (p.order, reply == Spins) == Rotate(old(p.order), buf[1] as nat, Ids(p.deck))
        else
          p.energy == old(p.energy) && p.order == old(p.order)
          && spawner == old(spawner) && reply == Done
      ensures n >= 1 && buf[0] == 4 && old(status) == Room ==>
        (reply == Panicked <==> DeckFor(buf[1..n]).None?)
        && (reply == Done ==> p.deck == DeckFor(buf[1..n]).value)
      ensures n >= 1 && buf[0] == 5 ==>
        (reply == Panicked <==> old(p.lastTime) == [])
        && (reply == Done ==> p.ping == now - old(p.lastTime)[0] && p.lastTime == old(p.lastTime)[1..])
      ensures reply == Done && buf[0] == 0 ==>
        unchanged(this) && unchanged(Bystanders(p))
        && unchanged(p`team, p`deck, p`order, p`energy, p`energyTime, p`maxEnergy, p`ping, p`lastTime)
      ensures reply == Done && buf[0] == 1 ==>
        unchanged(this) && unchanged(Bystanders(p))
        && unchanged(p`name, p`deck, p`order, p`energy, p`energyTime, p`maxEnergy, p`ping, p`lastTime)
      ensures reply == Done && buf[0] == 2 && buf[1..n - 1] != StartCommand ==>
        unchanged(p) && unchanged(Bystanders(p))
        && unchanged(this`spawner, this`units, this`energySpeed, this`status, this`frame, this`objID)
      ensures reply == Done && buf[0] == 2 && buf[1..n - 1] == StartCommand ==>
        unchanged(this`spawner) && unchanged(p`name, p`team, p`ping, p`lastTime)
      ensures (reply == Done || reply == Spins) && buf[0] == 3 ==>
        unchanged(Bystanders(p))
        && unchanged(this`broadcasts, this`units, this`energySpeed, this`status, this`frame, this`objID)
        && unchanged(p`name, p`team, p`deck, p`energyTime, p`maxEnergy, p`ping, p`lastTime)
      ensures reply == Done && buf[0] == 4 ==>
        unchanged(this) && unchanged(Bystanders(p))
        && unchanged(p`name, p`team, p`order, p`energy, p`energyTime, p`maxEnergy, p`ping, p`lastTime)
      ensures reply == Done && buf[0] == 5 ==>
        unchanged(this) && unchanged(Bystanders(p))
        && unchanged(p`name, p`team, p`deck, p`order, p`energy, p`energyTime, p`maxEnergy)
    {
      if n == 0 {
        return Ignored;
      }
      if buf[0] <= 2 {
        reply := ReceiveRoom(p, buf, n);
      } else {
        reply := ReceiveMatch(p, buf, n, now);
      }
    }

    /** Receive for the room commands: join (0), team (1) and chat (2). */
    method ReceiveRoom(p: Player, buf: seq<u8>, n: int) returns (reply: Reply)
      requires Valid() && |buf| == 4096 && 1 <= n <= |buf| && buf[0] <= 2
      modifies this`broadcasts, this`units, this`energySpeed, this`status, this`frame, this`objID
      modifies p`name, p`team
      modifies CountedSet()`order, CountedSet()`energy, CountedSet()`energyTime
      modifies CountedSet()`maxEnergy, Present(players[0])`deck, Present(players[0])`maxEnergy
      ensures reply != Panicked ==> Valid()
      ensures !Admits(buf[0], old(status)) ==> reply == Ignored
      ensures reply == Ignored ==> unchanged(this) && unchanged(p) && unchanged(CountedSet())
      ensures n == 1 && Admits(buf[0], old(status)) ==> reply == Panicked
      ensures n >= 2 && buf[0] == 0 && old(status) == Room ==>
        reply == Done && p.name == buf[1..n - 1]
      ensures n >= 2 && buf[0] == 1 && old(status) == Room ==>
        if buf[1] > 2 then reply == Ignored else reply == Done && p.team == buf[1]
      ensures n >= 2 && buf[0] == 2 && old(status) == Room && buf[1..n - 1] != StartCommand ==>
        reply == Done && broadcasts == old(broadcasts) + [ChatPacket(p.name, buf[1..n - 1])]
      ensures n >= 2 && buf[0] == 2 && old(status) == Room && buf[1..n - 1] == StartCommand ==>
        (reply == Panicked <==> old(players[0]) == null)
        && (reply == Done ==>
              status == Active && frame == MatchFrames && |units| == 1
              && units[0].kind == Earth && broadcasts == old(broadcasts) + [[1]])
      ensures reply == Done && buf[0] == 0 ==>
        unchanged(this) && unchanged(Bystanders(p))
        && unchanged(p`team, p`deck, p`order, p`energy, p`energyTime, p`maxEnergy, p`ping, p`lastTime)
      ensures reply == Done && buf[0] == 1 ==>
        unchanged(this) && unchanged(Bystanders(p))
        && unchanged(p`name, p`deck, p`order, p`energy, p`energyTime, p`maxEnergy, p`ping, p`lastTime)
      ensures reply == Done && buf[0] == 2 && buf[1..n - 1] != StartCommand ==>
        unchanged(p) && unchanged(Bystanders(p))
        && unchanged(this`spawner, this`units, this`energySpeed, this`status, this`frame, this`objID)
      ensures reply == Done && buf[0] == 2 && buf[1..n - 1] == StartCommand ==>
        unchanged(this`spawner) && unchanged(p`name, p`team, p`ping, p`lastTime)
    {
      var op := buf[0];
      if status == Active {
        return Ignored;
      }
      if n < 2 {
        return Panicked;
      }
      if op == 0 {
        p.name := buf[1..n - 1];
        reply := Done;
      } else if op == 1 {
        if buf[1] > 2 {
          return Ignored;
        }
        p.team := buf[1];
        reply := Done;
      } else {
        var text := buf[1..n - 1];
        if text == StartCommand {
          var crashed := Start();
          reply := if crashed then Panicked else Done;
        } else {
          Broadcast(ChatPacket(p.name, text));
          reply := Done;
        }
      }
    }

    /** Receive for use-card (3), deck-set (4), the ping reply (5) and unknown opcodes. */
    method ReceiveMatch(p: Player, buf: seq<u8>, n: int, now: int) returns (reply: Reply)
      requires Valid() && |buf| == 4096 && 1 <= n <= |buf| && buf[0] > 2
      modifies this`spawner, p`deck, p`order, p`energy, p`ping, p`lastTime
      ensures Valid()
      ensures !Admits(buf[0], old(status)) ==> reply == Ignored
      ensures reply == Ignored ==> unchanged(this) && unchanged(p)
      ensures n == 1 && Admits(buf[0], old(status)) && buf[0] <= 3 ==> reply == Panicked
      ensures n >= 2 && buf[0] == 3 && old(status) == Active && buf[1] >= 8 ==> reply == Panicked
      ensures n >= 2 && buf[0] == 3 && old(status) == Active && buf[1] < 8 ==>
        var card := old(p.deck[p.order[buf[1]]]);
        var x := ToInt16(Read16(buf[2..4]));
        if card.Usable(old(p.energy), p.team, x) then
          p.energy == old(p.energy) - card.cost
          && spawner == old(spawner) + Placements(card, p, x, WaitFrame(p.ping))
          && (p.order, reply == Spins) == Rotate(old(p.order), buf[1] as nat, Ids(p.deck))
        else
          p.energy == old(p.energy) && p.order == old(p.order)
          && spawner == old(spawner) && reply == Done
      ensures buf[0] == 4 && old(status) == Room ==>
        (reply == Panicked <==> DeckFor(buf[1..n]).None?)
        && (reply == Done ==> p.deck == DeckFor(buf[1..n]).value)
      ensures buf[0] == 5 ==>
        (reply == Panicked <==> old(p.lastTime) == [])
        && (reply == Done ==> p.ping == now - old(p.lastTime)[0] && p.lastTime == old(p.lastTime)[1..])
      ensures (reply == Done || reply == Spins) && buf[0] == 3 ==>
        unchanged(p`name, p`team, p`deck, p`ping, p`lastTime)
      ensures reply == Done && buf[0] == 4 ==>
        unchanged(this) && unchanged(p`name, p`team, p`order, p`energy, p`ping, p`lastTime)
      ensures reply == Done && buf[0] == 5 ==>
        unchanged(this) && unchanged(p`name, p`team, p`deck, p`order, p`energy)
    {
      var op := buf[0];
      if op == 3 {
        if status == Room {
          return Ignored;
        }
        if n < 2 || buf[1] >= 8 {
          return Panicked;
        }
        reply := PlayCard(p, buf[1], ToInt16(Read16(buf[2..4])));
      } else if op == 4 {
        if status == Active {
          return Ignored;
        }
        var ok := p.SetDeck(buf[1..n]);
        reply := if ok then Done else Panicked;
      } else if op == 5 {
        if p.lastTime == [] {
          return Panicked;
        }
        p.ping := now - p.lastTime[0];
        p.lastTime := p.lastTime[1..];
        reply := Done;
      } else {
        reply := Ignored;
      }
    }

    /** One due entry of the drain: build its unit or thrower, bind it to the owner
        with the next id, and send the owner the place. */
    method Place(e: Spawn, bits: real -> u64)
      requires Valid()
      modifies this`units, this`projectiles, this`objID, this`sends
      modifies e.owner`deck, e.owner`maxEnergy
      ensures Valid()
      ensures objID == Wrap16(old(objID) + 1)
      ensures sends == old(sends) + [Notice(e, bits)]
      ensures e.obj.MakeUnit? ==>
        |units| == |old(units)| + 1 && old(units) <= units
        && fresh(units[|old(units)|]) && UnitMade(units[|old(units)|], e, old(objID))
        && projectiles == old(projectiles)
      ensures e.obj.MakeThrower? ==>
        |projectiles| == |old(projectiles)| + 1 && old(projectiles) <= projectiles
        && fresh(projectiles[|old(projectiles)|])
        && ThrowerMade(projectiles[|old(projectiles)|], e, old(objID))
        && units == old(units)
    {
      match e.obj {
        case MakeUnit(k) =>
          PlaceUnit(e);
        case MakeThrower(h, t, m) =>
          PlaceThrower(e);
      }
      objID := Wrap16(objID + 1);
      sends := sends + [Notice(e, bits)];
    }

    method PlaceUnit(e: Spawn)
      requires Valid() && e.obj.MakeUnit?
      modifies this`units, e.owner`deck, e.owner`maxEnergy
      ensures Valid()
      ensures |units| == |old(units)| + 1 && old(units) <= units
      ensures fresh(units[|old(units)|]) && UnitMade(units[|old(units)|], e, objID)
    {
      var u := new Unit(e.obj.kind);
      DistinctAppend(units, u);
      units := units + [u];
      u.x := e.x - Width(e.obj.kind) / 2.0;
      u.y := e.y;
      u.Run(e.owner, objID);
    }

    method PlaceThrower(e: Spawn)
      requires Valid() && e.obj.MakeThrower?
      modifies this`projectiles
      ensures Valid()
      ensures |projectiles| == |old(projectiles)| + 1 && old(projectiles) <= projectiles
      ensures fresh(projectiles[|old(projectiles)|]) && ThrowerMade(projectiles[|old(projectiles)|], e, objID)
    {
      var pr := new Projectile(e.obj.height, e.obj.typeid, e.obj.magic);
      DistinctAppend(projectiles, pr);
      projectiles := projectiles + [pr];
      pr.x := e.x;   // a thrower's hit box has width 0
      pr.y := e.y;
      pr.Run(e.owner, objID);
    }

    /** The drain loop at an entry still waiting, at queue position i, which holds entry
        j of the queue `s0` the drain started from: the entry counts down one frame in
        place, and the drain's progress after j entries becomes its progress after
        j + 1. */
    method DrainWaitAt(i: nat, bits: real -> u64, ghost s0: seq<Spawn>, ghost j: nat, ghost base: u16,
                       ghost u0: seq<Unit>, ghost p0: seq<Projectile>, ghost sends0: seq<(Player, seq<u8>)>)
      requires Valid()
      requires j < |s0| && s0[j].time > 0 && i == |KeptTo(s0, j)| && DrainedTo(s0, j, base, u0, p0, sends0, bits)
      requires UnitsMade(units, |u0|, s0, j, base) && ThrowersMade(projectiles, |p0|, s0, j, base)
      modifies this`spawner
      ensures Valid()
      ensures i + 1 == |KeptTo(s0, j + 1)| && DrainedTo(s0, j + 1, base, u0, p0, sends0, bits)
      ensures UnitsMade(units, |u0|, s0, j + 1, base) && ThrowersMade(projectiles, |p0|, s0, j + 1, base)
    {
      DrainWaitStep(s0, j);
      WaitStep(s0, j, base, bits);
      spawner := spawner[i := spawner[i].(time := spawner[i].time - 1)];
      MadeFurther(units, projectiles, s0, j, base, |u0|, |p0|);
    }

    /** The state of the board after the drain has passed the first j entries of the
        queue `s0` it started from. */
    ghost predicate DrainedTo(s0: seq<Spawn>, j: nat, base: u16, u0: seq<Unit>, p0: seq<Projectile>,
                              sends0: seq<(Player, seq<u8>)>, bits: real -> u64)
      reads this
    {
      j <= |s0| && spawner == Progress(s0, j) && objID == Wrap16(base + |DueTo(s0, j)|)
      && u0 <= units && |units| == |u0| + |UnitsTo(s0, j, base)|
      && p0 <= projectiles && |projectiles| == |p0| + |ThrowersTo(s0, j, base)|
      && sends == sends0 + NoticesTo(s0, j, bits)
    }

    /** Of the first j entries of the queue s0 the drain started from, every due unit
        recipe has made its unit in `us`: the unit at position n plus the number of unit
        placements before the entry, with the id `base` plus the number of due entries
        before it. */
    ghost predicate UnitsMade(us: seq<Unit>, n: nat, s0: seq<Spawn>, j: nat, base: u16)
      requires j <= |s0|
      reads Members(us), Owners(s0)`team
    {
      forall q {:trigger UnitSlot(s0, q, base)} | 0 <= q < j && s0[q].time == 0 && s0[q].obj.MakeUnit? ::
        n + UnitSlot(s0, q, base) < |us|
        && UnitMade(us[n + UnitSlot(s0, q, base)], s0[q], Wrap16(base + |DueTo(s0, q)|))
    }

    /** Of the first j entries of the queue s0, every due thrower recipe has made its
        thrower in `ps`, at position n plus the number of thrower placements before the
        entry. */
    ghost predicate ThrowersMade(ps: seq<Projectile>, n: nat, s0: seq<Spawn>, j: nat, base: u16)
      requires j <= |s0|
      reads (set q | q in ps), Owners(s0)`team
    {
      forall q {:trigger ThrowerSlot(s0, q, base)} | 0 <= q < j && s0[q].time == 0 && s0[q].obj.MakeThrower? ::
        n + ThrowerSlot(s0, q, base) < |ps|
        && ThrowerMade(ps[n + ThrowerSlot(s0, q, base)], s0[q], Wrap16(base + |DueTo(s0, q)|))
    }

    /** A due unit recipe adds its unit, made with the next id, after the ones made
        before it. */
    lemma UnitsGrow(us: seq<Unit>, us': seq<Unit>, n: nat, s0: seq<Spawn>, j: nat, base: u16)
      requires j < |s0| && s0[j].time == 0
      requires UnitsMade(us, n, s0, j, base) && us <= us' && n + UnitSlot(s0, j, base) == |us|
      requires s0[j].obj.MakeUnit? ==> |us| < |us'| && UnitMade(us'[|us|], s0[j], Wrap16(base + |DueTo(s0, j)|))
      ensures UnitsMade(us', n, s0, j + 1, base)
    {
      forall q | 0 <= q < j + 1 && s0[q].time == 0 && s0[q].obj.MakeUnit?
        ensures n + UnitSlot(s0, q, base) < |us'|
        ensures UnitMade(us'[n + UnitSlot(s0, q, base)], s0[q], Wrap16(base + |DueTo(s0, q)|))
      {
        if q < j {
          var k := n + UnitSlot(s0, q, base);
          assert k < |us| && us'[k] == us[k];
        }
      }
    }

    /** A due thrower recipe adds its thrower, made with the next id, after the ones
        made before it. */
    lemma ThrowersGrow(ps: seq<Projectile>, ps': seq<Projectile>, m: nat, s0: seq<Spawn>, j: nat, base: u16)
      requires j < |s0| && s0[j].time == 0
      requires ThrowersMade(ps, m, s0, j, base) && ps <= ps' && m + ThrowerSlot(s0, j, base) == |ps|
      requires s0[j].obj.MakeThrower? ==> |ps| < |ps'| && ThrowerMade(ps'[|ps|], s0[j], Wrap16(base + |DueTo(s0, j)|))
      ensures ThrowersMade(ps', m, s0, j + 1, base)
    {
      forall q | 0 <= q < j + 1 && s0[q].time == 0 && s0[q].obj.MakeThrower?
        ensures m + ThrowerSlot(s0, q, base) < |ps'|
        ensures ThrowerMade(ps'[m + ThrowerSlot(s0, q, base)], s0[q], Wrap16(base + |DueTo(s0, q)|))
      {
        if q < j {
          var k := m + ThrowerSlot(s0, q, base);
          assert k < |ps| && ps'[k] == ps[k];
        }
      }
    }

    /** An entry still waiting makes nothing. */
    lemma MadeFurther(us: seq<Unit>, ps: seq<Projectile>, s0: seq<Spawn>, j: nat, base: u16, n: nat, m: nat)
      requires j < |s0| && s0[j].time > 0
      requires UnitsMade(us, n, s0, j, base) && ThrowersMade(ps, m, s0, j, base)
      ensures UnitsMade(us, n, s0, j + 1, base) && ThrowersMade(ps, m, s0, j + 1, base)
    {
    }

    /** One pass of the drain loop, at queue position i, which holds entry j of the
        queue `s0` the drain started from. */
    method DrainAt(i: nat, bits: real -> u64, ghost s0: seq<Spawn>, ghost j: nat, ghost base: u16,
                   ghost u0: seq<Unit>, ghost p0: seq<Projectile>, ghost sends0: seq<(Player, seq<u8>)>)
      returns (next: nat)
      requires Valid()
      requires j < |s0| && i == |KeptTo(s0, j)| && DrainedTo(s0, j, base, u0, p0, sends0, bits)
      requires UnitsMade(units, |u0|, s0, j, base) && ThrowersMade(projectiles, |p0|, s0, j, base)
      modifies this`spawner, this`units, this`projectiles, this`objID, this`sends
      modifies Owners(s0)`deck, Owners(s0)`maxEnergy
      ensures Valid()
      ensures next == |KeptTo(s0, j + 1)| && DrainedTo(s0, j + 1, base, u0, p0, sends0, bits)
      ensures UnitsMade(units, |u0|, s0, j + 1, base) && ThrowersMade(projectiles, |p0|, s0, j + 1, base)
      ensures old(units) <= units && (forall k | |old(units)| <= k < |units| :: fresh(units[k]))
      ensures forall k | |old(units)| <= k < |units| :: units[k].owner in Owners(s0)
      ensures old(projectiles) <= projectiles && (forall k | |old(projectiles)| <= k < |projectiles| :: fresh(projectiles[k]))
    {
      ProgressAt(s0, j);
      if spawner[i].time > 0 {
        DrainWaitAt(i, bits, s0, j, base, u0, p0, sends0);
        next := i + 1;
      } else {
        DrainPlaceAt(i, bits, s0, j, base, u0, p0, sends0);
        next := i;
      }
    }

    /** The drain loop at a due entry, at queue position i, which holds entry j of the
        queue `s0` the drain started from: the entry is placed and spliced out, and the
        drain's progress after j entries becomes its progress after j + 1. */
    method DrainPlaceAt(i: nat, bits: real -> u64, ghost s0: seq<Spawn>, ghost j: nat, ghost base: u16,
                        ghost u0: seq<Unit>, ghost p0: seq<Projectile>, ghost sends0: seq<(Player, seq<u8>)>)
      requires Valid()
      requires j < |s0| && s0[j].time == 0 && i == |KeptTo(s0, j)| && DrainedTo(s0, j, base, u0, p0, sends0, bits)
      requires UnitsMade(units, |u0|, s0, j, base) && ThrowersMade(projectiles, |p0|, s0, j, base)
      modifies this`spawner, this`units, this`projectiles, this`objID, this`sends
      modifies Owners(s0)`deck, Owners(s0)`maxEnergy
      ensures Valid()
      ensures i == |KeptTo(s0, j + 1)| && DrainedTo(s0, j + 1, base, u0, p0, sends0, bits)
      ensures UnitsMade(units, |u0|, s0, j + 1, base) && ThrowersMade(projectiles, |p0|, s0, j + 1, base)
      ensures old(units) <= units && (forall k | |old(units)| <= k < |units| :: fresh(units[k]))
      ensures forall k | |old(units)| <= k < |units| :: units[k].owner in Owners(s0)
      ensures old(projectiles) <= projectiles && (forall k | |old(projectiles)| <= k < |projectiles| :: fresh(projectiles[k]))
    {
      ProgressAt(s0, j);
      var e := spawner[i];
      // the source splices after placing; placing does not look at the queue
      SpliceAt(i, s0, j);
      Wrap16Succ(base + |DueTo(s0, j)|);
      PlaceNoticeStep(sends0, s0, j, bits);
      PlaceCountStep(s0, j, base);
      assert s0[j] in s0;
      PlaceCounted(e, bits, s0, j, base, |u0|, |p0|);
    }

    /** The drain loop's splice of a due entry out of the queue, at position i, which
        holds entry j of the queue `s0` the drain started from. */
    method SpliceAt(i: nat, ghost s0: seq<Spawn>, ghost j: nat)
      requires j < |s0| && s0[j].time == 0 && i == |KeptTo(s0, j)| && spawner == Progress(s0, j)
      modifies this`spawner
      ensures i == |KeptTo(s0, j + 1)| && spawner == Progress(s0, j + 1)
      ensures DueTo(s0, j + 1) == DueTo(s0, j) + [s0[j]]
    {
      DrainPlaceStep(s0, j);
      spawner := spawner[..i] + spawner[i + 1..];
    }

    /** Place, as the drain counts it, for the due entry e, entry j of the queue `s0`
        the drain started from: one more unit or one more thrower, new, at the end,
        made from e with the next id, after the ones made before it. */
    method PlaceCounted(e: Spawn, bits: real -> u64, ghost s0: seq<Spawn>, ghost j: nat, ghost base: u16,
                        ghost n: nat, ghost m: nat)
      requires Valid() && j < |s0| && e == s0[j] && e.time == 0 && objID == Wrap16(base + |DueTo(s0, j)|)
      requires n + UnitSlot(s0, j, base) == |units| && m + ThrowerSlot(s0, j, base) == |projectiles|
      requires UnitsMade(units, n, s0, j, base) && ThrowersMade(projectiles, m, s0, j, base)
      modifies this`units, this`projectiles, this`objID, this`sends
      modifies e.owner`deck, e.owner`maxEnergy
      ensures Valid()
      ensures objID == Wrap16(old(objID) + 1) && sends == old(sends) + [Notice(e, bits)]
      ensures old(units) <= units && |units| == |old(units)| + (if e.obj.MakeUnit? then 1 else 0)
      ensures forall k | |old(units)| <= k < |units| :: fresh(units[k]) && units[k].owner == e.owner
      ensures old(projectiles) <= projectiles
      ensures |projectiles| == |old(projectiles)| + (if e.obj.MakeThrower? then 1 else 0)
      ensures forall k | |old(projectiles)| <= k < |projectiles| :: fresh(projectiles[k])
      ensures UnitsMade(units, n, s0, j + 1, base) && ThrowersMade(projectiles, m, s0, j + 1, base)
    {
      ghost var us, ps := units, projectiles;
      Place(e, bits);
      UnitsGrow(us, units, n, s0, j, base);
      ThrowersGrow(ps, projectiles, m, s0, j, base);
    }

    /** The spawn drain of an active tick. Every waiting entry counts down one frame;
        every due entry becomes a unit or a thrower at its place, bound to its owner
        with the next object id, and its owner is sent the place. `bits` stands for the
        float64 bit pattern of a coordinate. */
    method DrainSpawns(bits: real -> u64)
      requires Valid()
      modifies this`spawner, this`units, this`projectiles, this`objID, this`sends
      modifies Owners(spawner)`deck, Owners(spawner)`maxEnergy
      ensures Valid()
      ensures spawner == Kept(old(spawner))
      ensures objID == Wrap16(old(objID) + |Due(old(spawner))|)
      ensures old(units) <= units && (forall k | |old(units)| <= k < |units| :: fresh(units[k]))
      ensures |units| == |old(units)| + |UnitsTo(old(spawner), |old(spawner)|, old(objID))|
      ensures old(projectiles) <= projectiles && (forall k | |old(projectiles)| <= k < |projectiles| :: fresh(projectiles[k]))
      ensures |projectiles| == |old(projectiles)| + |ThrowersTo(old(spawner), |old(spawner)|, old(objID))|
      ensures sends == old(sends) + NoticesTo(old(spawner), |old(spawner)|, bits)
      ensures forall k | |old(units)| <= k < |units| :: units[k].owner in Owners(old(spawner))
      ensures UnitsMade(units, |old(units)|, old(spawner), |old(spawner)|, old(objID))
      ensures ThrowersMade(projectiles, |old(projectiles)|, old(spawner), |old(spawner)|, old(objID))
    {
      ghost var s0, u0, p0, base := spawner, units, projectiles, objID;
      ghost var j := 0;
      var i := 0;
      ProgressEnds(s0);
      while i < |spawner|
        invariant 0 <= j <= |s0| && i == |KeptTo(s0, j)| && |spawner| == i + (|s0| - j)
        invariant Valid() && DrainedTo(s0, j, base, u0, p0, old(sends), bits)
        invariant forall k | |u0| <= k < |units| :: fresh(units[k]) && units[k].owner in Owners(s0)
        invariant forall k | |p0| <= k < |projectiles| :: fresh(projectiles[k])
        invariant UnitsMade(units, |u0|, s0, j, base) && ThrowersMade(projectiles, |p0|, s0, j, base)
        decreases |s0| - j
      {
        i := DrainAt(i, bits, s0, j, base, u0, p0, old(sends));
        j := j + 1;
      }
    }

    /** The state of the board after the unit sweep, with `slot2` as the new owner of
        converted units, has passed the first j units of the list `u0` it started from,
        whose vitals were then vs; b0 are the broadcasts before the sweep. */
    ghost predicate SweptTo(u0: seq<Unit>, vs: seq<Vitals>, slot2: Player?, j: nat, b0: seq<seq<u8>>)
      reads this, Members(u0)
    {
      |vs| == |u0| && j <= |u0| && Distinct(u0)
      && units == SweepProgress(u0, vs, slot2 == null, j)
      && broadcasts == b0 + RemovalsTo(vs, slot2 == null, j)
      && Settled(u0, vs, slot2, j)
    }

    /** The board once End(team) has run after the broadcasts bs. */
    ghost predicate Ended(bs: seq<seq<u8>>, team: u8)
      reads this
    {
      units == [] && projectiles == [] && status == Room && broadcasts == bs + [EndPacket(team)]
    }

    /** The unit sweep at list position i, which holds unit j of the list `u0` the sweep
        started from. The unit's team is looked at first; a dead unit runs its Death,
        which is broadcast, and leaves the list, except that a dead Earth ends the match
        with team 1's win and the sweep stops there; a living unit not on team 2 whose
        poison has reached its health changes hands to `slot2`. */
    method SweepStep(i: nat, slot2: Player?, ghost u0: seq<Unit>, ghost vs: seq<Vitals>, ghost j: nat,
                     ghost b0: seq<seq<u8>>)
      returns (next: nat, onTeam2: bool, halted: bool, crashed: bool)
      requires Valid()
      requires |vs| == |u0| && j < |u0| && i == |SurvivorsTo(u0, vs, slot2 == null, j)| && SweptTo(u0, vs, slot2, j, b0)
      modifies this`units, this`projectiles, this`broadcasts, this`status
      modifies {u0[j]}`owner, {u0[j]}`team, {u0[j]}`poison
      modifies Present(vs[j].owner)`deck, Present(vs[j].owner)`maxEnergy
      modifies Present(slot2)`deck, Present(slot2)`maxEnergy
      ensures Valid()
      ensures crashed ==> halted
      ensures halted ==> Settled(u0, vs, slot2, j)
      ensures var f := FateOf(vs[j], slot2 == null);
        onTeam2 == (vs[j].team == PoisonTeam) && (halted <==> Halts(f)) && (crashed <==> f == Crash)
        && (!halted ==>
              next == |SurvivorsTo(u0, vs, slot2 == null, j + 1)| && SweptTo(u0, vs, slot2, j + 1, b0)
              && projectiles == old(projectiles) && status == old(status))
        && (f == EarthFalls ==> Ended(b0 + RemovalsTo(vs, slot2 == null, j) + [RemovedPacket(vs[j].id)], 1))
    {
      SweepLooksAt(u0, vs, slot2 == null, j);
      var u := units[i];
      onTeam2 := u.team == PoisonTeam;
      if u.health == 0 {
        if u.owner == null {
          // Death broadcasts through the absent owner
          return i, onTeam2, true, true;
        }
        halted := SweepDead(i, slot2, u0, vs, j, b0);
        next, crashed := i, false;
      } else {
        halted, crashed := SweepLiving(i, slot2, u0, vs, j, b0);
        next := if halted then i else i + 1;
      }
    }

    /** The sweep at a dead unit with an owner, at list position i, which holds unit j
        of the list `u0` the sweep started from: its Death runs and is broadcast and it
        leaves the list, except that a dead Earth ends the match with team 1's win and
        the sweep stops there. */
    method SweepDead(i: nat, slot2: Player?, ghost u0: seq<Unit>, ghost vs: seq<Vitals>, ghost j: nat,
                     ghost b0: seq<seq<u8>>)
      returns (halted: bool)
      requires Valid()
      requires |vs| == |u0| && j < |u0| && i == |SurvivorsTo(u0, vs, slot2 == null, j)| && SweptTo(u0, vs, slot2, j, b0)
      requires vs[j].health == 0 && vs[j].owner != null
      modifies this`units, this`projectiles, this`broadcasts, this`status
      modifies Present(vs[j].owner)`deck, Present(vs[j].owner)`maxEnergy
      ensures Valid()
      ensures var f := FateOf(vs[j], slot2 == null);
        (halted <==> f == EarthFalls)
        && (!halted ==>
              i == |SurvivorsTo(u0, vs, slot2 == null, j + 1)| && SweptTo(u0, vs, slot2, j + 1, b0)
              && projectiles == old(projectiles) && status == old(status))
        && (f == EarthFalls ==> Ended(b0 + RemovalsTo(vs, slot2 == null, j) + [RemovedPacket(vs[j].id)], 1))
    {
      SweepLooksAt(u0, vs, slot2 == null, j);
      var u := units[i];
      if u.kind.Earth? {
        SweepEarth(i, slot2, u0, vs, j, b0);
        return true;
      }
      SweepRemove(i, slot2, u0, vs, j, b0);
      halted := false;
    }

    /** The sweep at a living unit, at list position i, which holds unit j of the list
        `u0` the sweep started from: one not on team 2 whose poison has reached its
        health changes hands to `slot2`; any other is left as it is. */
    method SweepLiving(i: nat, slot2: Player?, ghost u0: seq<Unit>, ghost vs: seq<Vitals>, ghost j: nat,
                       ghost b0: seq<seq<u8>>)
      returns (halted: bool, crashed: bool)
      requires Valid()
      requires |vs| == |u0| && j < |u0| && i == |SurvivorsTo(u0, vs, slot2 == null, j)| && SweptTo(u0, vs, slot2, j, b0)
      requires vs[j].health != 0
      modifies {u0[j]}`owner, {u0[j]}`team, {u0[j]}`poison
      modifies Present(vs[j].owner)`deck, Present(vs[j].owner)`maxEnergy
      modifies Present(slot2)`deck, Present(slot2)`maxEnergy
      ensures Valid()
      ensures halted ==> Settled(u0, vs, slot2, j)
      ensures var f := FateOf(vs[j], slot2 == null);
        halted == crashed && (crashed <==> f == Crash)
        && (!halted ==> i + 1 == |SurvivorsTo(u0, vs, slot2 == null, j + 1)| && SweptTo(u0, vs, slot2, j + 1, b0))
    {
      SweepLooksAt(u0, vs, slot2 == null, j);
      var u := units[i];
      if u.team != PoisonTeam && u.IsPoisoned() {
        if u.owner == null || ((u.kind.Note? || u.kind.Bag?) && slot2 == null) {
          // Poisoned dereferences the absent old or new owner
          return true, true;
        }
        SweepConvert(i, slot2, u0, vs, j, b0);
      } else {
        SweepKeep(i, slot2, u0, vs, j, b0);
      }
      halted, crashed := false, false;
    }

    /** The sweep at a dead unit other than Earth: its Death runs and is broadcast, and
        it is spliced out of the list. */
    method SweepRemove(i: nat, ghost slot2: Player?, ghost u0: seq<Unit>, ghost vs: seq<Vitals>, ghost j: nat,
                       ghost b0: seq<seq<u8>>)
      requires Valid()
      requires |vs| == |u0| && j < |u0| && i == |SurvivorsTo(u0, vs, slot2 == null, j)| && SweptTo(u0, vs, slot2, j, b0)
      requires FateOf(vs[j], slot2 == null) == Remove
      modifies this`units, this`broadcasts, Present(vs[j].owner)`deck, Present(vs[j].owner)`maxEnergy
      ensures Valid()
      ensures i == |SurvivorsTo(u0, vs, slot2 == null, j + 1)| && SweptTo(u0, vs, slot2, j + 1, b0)
    {
      SweepDeath(i, slot2, u0, vs, j, b0);
      SpliceUnit(i, slot2 == null, u0, vs, j);
      SettledPasses(u0, vs, slot2, j);
    }

    /** The Death of the dead unit at position i, which holds unit j of the list `u0` the
        sweep started from, and its broadcast. */
    method SweepDeath(i: nat, ghost slot2: Player?, ghost u0: seq<Unit>, ghost vs: seq<Vitals>, ghost j: nat,
                      ghost b0: seq<seq<u8>>)
      requires |vs| == |u0| && j < |u0| && i == |SurvivorsTo(u0, vs, slot2 == null, j)| && SweptTo(u0, vs, slot2, j, b0)
      requires FateOf(vs[j], slot2 == null) == Remove
      modifies this`broadcasts, Present(vs[j].owner)`deck, Present(vs[j].owner)`maxEnergy
      ensures broadcasts == b0 + RemovalsTo(vs, slot2 == null, j + 1)
    {
      SweepLooksAt(u0, vs, slot2 == null, j);
      SweepRemoveStep(u0, vs, slot2 == null, j);
      var u := units[i];
      var packet, dead := u.Death();
      Broadcast(packet);
    }

    /** The sweep's splice of a dead unit out of the list, at position i, which holds unit
        j of the list `u0` the sweep started from. */
    method SpliceUnit(i: nat, ghost s2a: bool, ghost u0: seq<Unit>, ghost vs: seq<Vitals>, ghost j: nat)
      requires Valid() && |vs| == |u0| && j < |u0| && FateOf(vs[j], s2a) == Remove
      requires i == |SurvivorsTo(u0, vs, s2a, j)| && units == SweepProgress(u0, vs, s2a, j)
      modifies this`units
      ensures Valid()
      ensures i == |SurvivorsTo(u0, vs, s2a, j + 1)| && units == SweepProgress(u0, vs, s2a, j + 1)
    {
      SweepRemoveStep(u0, vs, s2a, j);
      DistinctSplice(units, i);
      var next := units[..i] + units[i + 1..];
      assert next == SweepProgress(u0, vs, s2a, j + 1) && Distinct(next);
      units := next;
    }

    /** The sweep at a dead Earth: its Death runs and is broadcast, and the match ends
        with team 1's win. */
    method SweepEarth(i: nat, ghost slot2: Player?, ghost u0: seq<Unit>, ghost vs: seq<Vitals>, ghost j: nat,
                      ghost b0: seq<seq<u8>>)
      requires Valid()
      requires |vs| == |u0| && j < |u0| && i == |SurvivorsTo(u0, vs, slot2 == null, j)| && SweptTo(u0, vs, slot2, j, b0)
      requires FateOf(vs[j], slot2 == null) == EarthFalls
      modifies this`units, this`projectiles, this`broadcasts, this`status
      modifies Present(vs[j].owner)`deck, Present(vs[j].owner)`maxEnergy
      ensures Valid()
      ensures Ended(b0 + RemovalsTo(vs, slot2 == null, j) + [RemovedPacket(vs[j].id)], 1)
    {
      SweepLooksAt(u0, vs, slot2 == null, j);
      var u := units[i];
      var packet, dead := u.Death();
      Broadcast(packet);
      End(1);
    }

    /** The sweep at a living unit not on team 2 whose poison has reached its health:
        it changes hands to `slot2` and joins team 2. */
    method SweepConvert(i: nat, slot2: Player?, ghost u0: seq<Unit>, ghost vs: seq<Vitals>, ghost j: nat,
                        ghost b0: seq<seq<u8>>)
      requires Valid()
      requires |vs| == |u0| && j < |u0| && i == |SurvivorsTo(u0, vs, slot2 == null, j)| && SweptTo(u0, vs, slot2, j, b0)
      requires FateOf(vs[j], slot2 == null) == Convert
      modifies {u0[j]}`owner, {u0[j]}`team, {u0[j]}`poison
      modifies Present(vs[j].owner)`deck, Present(vs[j].owner)`maxEnergy
      modifies Present(slot2)`deck, Present(slot2)`maxEnergy
      ensures Valid()
      ensures i + 1 == |SurvivorsTo(u0, vs, slot2 == null, j + 1)| && SweptTo(u0, vs, slot2, j + 1, b0)
      ensures u0[j].owner == slot2 && u0[j].team == PoisonTeam && u0[j].poison == u0[j].health
    {
      SweepLooksAt(u0, vs, slot2 == null, j);
      SweepKeepStep(u0, vs, slot2 == null, j);
      DistinctAt(u0, j);
      var u := units[i];
      var failed := u.Poisoned(slot2);
    }

    /** The sweep at any other living unit: nothing changes. */
    lemma SweepKeep(i: nat, slot2: Player?, u0: seq<Unit>, vs: seq<Vitals>, j: nat, b0: seq<seq<u8>>)
      requires |vs| == |u0| && j < |u0| && i == |SurvivorsTo(u0, vs, slot2 == null, j)| && SweptTo(u0, vs, slot2, j, b0)
      requires FateOf(vs[j], slot2 == null) == Keep
      ensures i + 1 == |SurvivorsTo(u0, vs, slot2 == null, j + 1)| && SweptTo(u0, vs, slot2, j + 1, b0)
    {
      SweepKeepStep(u0, vs, slot2 == null, j);
      SettledPasses(u0, vs, slot2, j);
    }

    /** The unit sweep of an active tick, over the units as they stood before it, with
        slot 2 as it stands. */
    method SweepUnits() returns (allPoisoned: bool, crashed: bool)
      requires Valid()
      modifies this`units, this`projectiles, this`broadcasts, this`status
      modifies Members(units)`owner, Members(units)`team, Members(units)`poison
      modifies Owned(Snapshot(units))`deck, Owned(Snapshot(units))`maxEnergy
      modifies Present(players[2])`deck, Present(players[2])`maxEnergy
      ensures Valid()
      ensures SweepDone(units, projectiles, status, broadcasts, old(units), old(Snapshot(units)), players[2] == null, old(broadcasts), old(projectiles),
                        old(status), allPoisoned, crashed)
      ensures SweptUnits(old(units), old(Snapshot(units)), players[2])
    {
      SweepLoopStarts(units, Snapshot(units), players[2], broadcasts, projectiles, status);
      allPoisoned, crashed := SweepRun(players[2], units, Snapshot(units), broadcasts, projectiles, status);
    }

    /** The sweep loop over the units u0, whose vitals are vs. */
    method SweepRun(slot2: Player?, ghost u0: seq<Unit>, ghost vs: seq<Vitals>, ghost b0: seq<seq<u8>>,
                    ghost p0: seq<Projectile>, ghost st0: u8)
      returns (allPoisoned: bool, crashed: bool)
      requires Valid() && SweepLoop(u0, vs, slot2, 0, 0, b0, p0, st0, true, false, false)
      modifies this`units, this`projectiles, this`broadcasts, this`status
      modifies Members(u0)`owner, Members(u0)`team, Members(u0)`poison
      modifies Owned(vs)`deck, Owned(vs)`maxEnergy, Present(slot2)`deck, Present(slot2)`maxEnergy
      ensures Valid() && SweepDone(units, projectiles, status, broadcasts, u0, vs, slot2 == null, b0, p0, st0, allPoisoned, crashed)
      ensures SweptUnits(u0, vs, slot2)
    {
      ghost var j := 0;
      var i: nat := 0;
      var halted := false;
      allPoisoned, crashed := true, false;
      while !halted && i < |units|
        invariant j <= |u0| && Valid()
        invariant SweepLoop(u0, vs, slot2, j, i, b0, p0, st0, allPoisoned, crashed, halted)
        decreases |u0| - j
      {
        i, allPoisoned, halted, crashed := SweepIter(i, slot2, u0, vs, j, b0, p0, st0, allPoisoned);
        j := j + 1;
      }
      SweepLoopExit(u0, vs, slot2, j, i, b0, p0, st0, allPoisoned, crashed, halted);
    }

    /** The sweep loop's state before its first pass. */
    lemma SweepLoopStarts(u0: seq<Unit>, vs: seq<Vitals>, slot2: Player?, b0: seq<seq<u8>>, p0: seq<Projectile>, st0: u8)
      requires Valid() && units == u0 && vs == Snapshot(u0) && broadcasts == b0 && projectiles == p0 && status == st0
      ensures SweepLoop(u0, vs, slot2, 0, 0, b0, p0, st0, true, false, false)
    {
      SweepStarts(u0, vs, slot2 == null);
    }

    /** The sweep loop's exit, halted or past the last unit. */
    lemma SweepLoopExit(u0: seq<Unit>, vs: seq<Vitals>, slot2: Player?, j: nat, i: nat, b0: seq<seq<u8>>,
                        p0: seq<Projectile>, st0: u8, allPoisoned: bool, crashed: bool, halted: bool)
      requires SweepLoop(u0, vs, slot2, j, i, b0, p0, st0, allPoisoned, crashed, halted)
      requires halted || i >= |units|
      ensures SweepDone(units, projectiles, status, broadcasts, u0, vs, slot2 == null, b0, p0, st0, allPoisoned, crashed)
      ensures SweptUnits(u0, vs, slot2)
    {
      if !halted {
        SweepEndDone(u0, vs, slot2 == null, b0, p0, st0, allPoisoned, crashed);
        assert j == |u0| == StopFrom(vs, slot2 == null, 0);
      }
    }

    /** The sweep loop's state after it has passed j units: short of a halt, the list,
        the broadcasts, the units passed and the flag so far; once halted, the whole
        outcome. */
    ghost predicate SweepLoop(u0: seq<Unit>, vs: seq<Vitals>, slot2: Player?, j: nat, i: nat, b0: seq<seq<u8>>,
                              p0: seq<Projectile>, st0: u8, allPoisoned: bool, crashed: bool, halted: bool)
      reads this, Members(u0)
    {
      |vs| == |u0| && j <= |u0|
      && (!halted ==>
            i == |SurvivorsTo(u0, vs, slot2 == null, j)| && |units| == i + (|u0| - j)
            && StopFrom(vs, slot2 == null, 0) == StopFrom(vs, slot2 == null, j) && allPoisoned == AllPoisonedTo(vs, j) && !crashed
            && SweptTo(u0, vs, slot2, j, b0) && projectiles == p0 && status == st0)
      && (halted ==> SweepDone(units, projectiles, status, broadcasts, u0, vs, slot2 == null, b0, p0, st0, allPoisoned, crashed)
                     && SweptUnits(u0, vs, slot2))
    }

    /** One pass of the sweep loop, at list position i, which holds unit j of the list
        `u0` the sweep started from. */
    method SweepIter(i: nat, slot2: Player?, ghost u0: seq<Unit>, ghost vs: seq<Vitals>, ghost j: nat,
                     ghost b0: seq<seq<u8>>, ghost p0: seq<Projectile>, ghost st0: u8, allPoisoned: bool)
      returns (next: nat, allPoisoned': bool, halted: bool, crashed: bool)
      requires Valid() && j < |u0|
      requires SweepLoop(u0, vs, slot2, j, i, b0, p0, st0, allPoisoned, false, false)
      modifies this`units, this`projectiles, this`broadcasts, this`status
      modifies Members(u0)`owner, Members(u0)`team, Members(u0)`poison
      modifies Owned(vs)`deck, Owned(vs)`maxEnergy, Present(slot2)`deck, Present(slot2)`maxEnergy
      ensures Valid()
      ensures SweepLoop(u0, vs, slot2, j + 1, next, b0, p0, st0, allPoisoned', crashed, halted)
    {
      var onTeam2: bool;
      assert u0[j] in Members(u0) && (vs[j].owner == null || vs[j].owner in Owned(vs));
      next, onTeam2, halted, crashed := SweepStep(i, slot2, u0, vs, j, b0);
      allPoisoned' := allPoisoned && onTeam2;
      if halted {
        SweepHaltDone(u0, vs, slot2 == null, j, b0, p0, st0, allPoisoned', crashed);
        assert StopFrom(vs, slot2 == null, j) == j;
      }
    }

    /** The sweep's exit at the unit where it halts. */
    lemma SweepHaltDone(u0: seq<Unit>, vs: seq<Vitals>, s2a: bool, j: nat, b0: seq<seq<u8>>,
                        p0: seq<Projectile>, st0: u8, allPoisoned: bool, crashed: bool)
      requires |vs| == |u0| && j < |u0| && StopFrom(vs, s2a, 0) == StopFrom(vs, s2a, j)
      requires Halts(FateOf(vs[j], s2a)) && (crashed <==> FateOf(vs[j], s2a) == Crash)
      requires allPoisoned == (AllPoisonedTo(vs, j) && vs[j].team == PoisonTeam)
      requires FateOf(vs[j], s2a) == EarthFalls ==> Ended(b0 + RemovalsTo(vs, s2a, j) + [RemovedPacket(vs[j].id)], 1)
      ensures SweepDone(units, projectiles, status, broadcasts, u0, vs, s2a, b0, p0, st0, allPoisoned, crashed)
    {
    }

    /** The sweep's exit after the last unit. */
    lemma SweepEndDone(u0: seq<Unit>, vs: seq<Vitals>, s2a: bool, b0: seq<seq<u8>>,
                       p0: seq<Projectile>, st0: u8, allPoisoned: bool, crashed: bool)
      requires |vs| == |u0| && StopFrom(vs, s2a, 0) == StopFrom(vs, s2a, |u0|) && !crashed
      requires allPoisoned == AllPoisonedTo(vs, |u0|)
      requires units == SweepProgress(u0, vs, s2a, |u0|) && broadcasts == b0 + RemovalsTo(vs, s2a, |u0|)
      requires projectiles == p0 && status == st0
      ensures SweepDone(units, projectiles, status, broadcasts, u0, vs, s2a, b0, p0, st0, allPoisoned, crashed)
    {
      assert SurvivorsTo(u0, vs, s2a, |u0|) + [] == units;
    }

    /** End: the board is cleared, the match returns to the room and the winning team
        is announced. */
    method End(team: u8)
      requires Valid()
      modifies this`units, this`projectiles, this`broadcasts, this`status
      ensures Valid()
      ensures units == [] && projectiles == [] && status == Room
      ensures broadcasts == old(broadcasts) + [EndPacket(team)]
    {
      units := [];
      projectiles := [];
      Broadcast(EndPacket(team));
      status := Room;
    }

    // ---- the tick ----

    /** The heartbeat of a tick: once the countdown has run out, every counted player is
        stamped with `now`, [5] is broadcast and the countdown restarts; either way it
        then counts down by one. */
    method Heartbeat(now: int)
      requires Valid()
      modifies this`second, this`broadcasts, CountedSet()`lastTime
      ensures second == HeartbeatStep(old(second)).1
      ensures broadcasts == old(broadcasts) + if HeartbeatStep(old(second)).0 then [[5]] else []
      ensures forall q: Player | q in CountedSet() ::
        q.lastTime == old(q.lastTime) + if HeartbeatStep(old(second)).0 then Repeat(now, Occ(Counted(), q)) else []
    {
      if second < 1 {
        Stamp(now);
        Broadcast([5]);
        second := HeartbeatFrames;
      }
      second := second - 1;
    }

    /** The heartbeat's stamp: `now` is appended to the send times of the player in each
        counted slot, so a player seated in two slots is stamped twice. */
    method Stamp(now: int)
      requires Valid()
      modifies CountedSet()`lastTime
      ensures forall q: Player | q in CountedSet() :: q.lastTime == old(q.lastTime) + Repeat(now, Occ(Counted(), q))
    {
      ghost var qs := Roster(Counted());
      ghost var s := map q: Player | q in qs :: q.lastTime;
      var n := if playerCount < 0 then 0 else playerCount;
      var i := 0;
      while i < n
        invariant i <= n && StampedTo(qs, s, players[..i], now)
      {
        StampSlot(i, now, qs, s);
        i := i + 1;
      }
      assert players[..n] == Counted();
    }

    /** The stamp of the player in counted slot i. */
    method StampSlot(i: nat, now: int, ghost qs: set<Player>, ghost s: map<Player, seq<int>>)
      requires Valid() && i < playerCount && qs == Roster(Counted())
      requires StampedTo(qs, s, players[..i], now)
      modifies Present(players[i])`lastTime
      ensures StampedTo(qs, s, players[..i + 1], now)
    {
      var p := players[i];
      assert players[..i + 1][..i] == players[..i];
      p.lastTime := p.lastTime + [now];
    }

    /** The roster broadcast of every tick. */
    method BroadcastRoster()
      requires Valid()
      modifies this`broadcasts
      ensures broadcasts == old(broadcasts) + [RosterPacket(Counted())]
    {
      ghost var rs := RosterDatas(Counted());
      var data := RosterData(rs);
      Broadcast(data);
      assert rs == RosterDatas(Counted());
    }

    /** The roster packet built slot by slot: opcode 0, then each counted player's
        record. */
    method RosterData(ghost rs: seq<seq<u8>>) returns (data: seq<u8>)
      requires Valid() && rs == RosterDatas(Counted())
      ensures data == [0] + Concat(rs)
    {
      var n := if playerCount < 0 then 0 else playerCount;
      var records := [];
      var i := 0;
      while i < n
        invariant i <= n && records == Concat(rs[..i])
      {
        ConcatSnoc(rs, i);
        var r := players[i].Data();
        assert rs[i] == r;
        records := records + r;
        i := i + 1;
      }
      ConcatAll(rs);
      data := [0] + records;
    }

    /** Every unit runs its Frame, in list order, engaged as `engaged` says. A unit
        outside the arena is left with no health, each Flask's timer counts down, and
        each attacker cools down or fires; `crashed` at the first unit whose Frame
        reaches through an absent owner (Starves), and the frames stop there. */
    method UnitFrames(engaged: Unit -> bool) returns (crashed: bool)
      requires Valid()
      modifies Members(units)`health, Members(units)`time, Members(units)`cooltime, ClockOwners(Clocks(units))`energy
      ensures var cs, es := old(Clocks(units)), Engagements(units, engaged);
        (crashed <==> StarveFrom(cs, es, 0) < |units|)
        && forall k | 0 <= k < StarveFrom(cs, es, 0) :: ClockOf(units[k]) == Advance(cs[k], engaged(units[k]))
    {
      ghost var cs := Clocks(units);
      ghost var es := Engagements(units, engaged);
      var i := 0;
      while i < |units|
        invariant i <= |units| && AdvancedTo(units, cs, engaged, i) && ClocksFrom(units, cs, i)
        invariant StarveFrom(cs, es, 0) == StarveFrom(cs, es, i)
      {
        crashed := FrameAt(i, engaged, cs, es);
        if crashed {
          return;
        }
        i := i + 1;
      }
      crashed := false;
    }

    /** The Frame of the unit at position i. */
    method FrameAt(i: nat, engaged: Unit -> bool, ghost cs: seq<Clock>, ghost es: seq<bool>) returns (crashed: bool)
      requires Valid() && i < |units| && AdvancedTo(units, cs, engaged, i) && ClocksFrom(units, cs, i)
      requires es == Engagements(units, engaged) && StarveFrom(cs, es, 0) == StarveFrom(cs, es, i)
      modifies Members(units)`health, Members(units)`time, Members(units)`cooltime, ClockOwners(cs)`energy
      ensures AdvancedTo(units, cs, engaged, i)
      ensures crashed <==> StarveFrom(cs, es, 0) == i
      ensures !crashed ==>
        AdvancedTo(units, cs, engaged, i + 1) && ClocksFrom(units, cs, i + 1)
        && StarveFrom(cs, es, 0) == StarveFrom(cs, es, i + 1)
    {
      var u := units[i];
      DistinctAt(units, i);
      assert u.owner == null || u.owner in ClockOwners(cs);
      var fired;
      fired, crashed := u.Frame(engaged(u));
      assert forall k | 0 <= k < |units| && k != i :: ClockOf(units[k]) == old(ClockOf(units[k]));
      assert !crashed ==> ClockOf(u) == Advance(cs[i], engaged(u));
    }

    /** Every projectile runs its Frame: it falls one step and is used from the ground on. */
    method ProjectileFrames()
      requires Valid()
      modifies Thrown(projectiles)`y, Thrown(projectiles)`using
      ensures forall k | 0 <= k < |projectiles| ::
        (projectiles[k].y, projectiles[k].using) == Fall(old(projectiles[k].y), old(projectiles[k].using))
    {
      ghost var hs := Heights(projectiles);
      for i := 0 to |projectiles|
        invariant FallenTo(projectiles, hs, i)
      {
        DistinctAt(projectiles, i);
        projectiles[i].Frame();
      }
    }

    /** The projectile sweep: each used projectile runs its Death, its removal is
        broadcast and it leaves the list; `crashed` where a used projectile has no owner
        to broadcast through, and the sweep stops there. */
    method SweepProjectiles() returns (crashed: bool)
      requires Valid()
      modifies this`projectiles, this`broadcasts
      ensures Valid()
      ensures var ss := old(Shots(projectiles));
        (crashed <==> CrashFrom(ss, 0) < |ss|)
        && (!crashed ==>
              projectiles == LeftTo(old(projectiles), ss, |ss|) && broadcasts == old(broadcasts) + SpentTo(ss, |ss|))
    {
      ghost var p0, ss, b0 := projectiles, Shots(projectiles), broadcasts;
      ghost var j: nat := 0;
      var i: nat := 0;
      ShotStarts(p0, ss);
      while i < |projectiles|
        invariant Valid() && ShotLoop(p0, ss, b0, j, i)
        invariant forall k | 0 <= k < |p0| :: ss[k] == ShotOf(p0[k])
        decreases |p0| - j
      {
        i, crashed := ShotIter(i, p0, ss, b0, j);
        if crashed {
          return;
        }
        j := j + 1;
      }
      ShotsEnd(p0, ss);
      crashed := false;
    }

    /** The projectile sweep after j of the projectiles p0 it started from, i of them
        left: the list, the broadcasts so far and no crash yet. */
    ghost predicate ShotLoop(p0: seq<Projectile>, ss: seq<Shot>, b0: seq<seq<u8>>, j: nat, i: nat)
      reads this`projectiles, this`broadcasts
    {
      j <= |p0| && |ss| == |p0| && i == |LeftTo(p0, ss, j)| && |projectiles| == i + (|p0| - j)
      && projectiles == ShotProgress(p0, ss, j) && broadcasts == b0 + SpentTo(ss, j)
      && CrashFrom(ss, 0) == CrashFrom(ss, j)
    }

    /** One pass of the projectile sweep, at list position i, which holds projectile j
        of p0: a used one is announced and spliced out, unless its Death crashes. */
    method ShotIter(i: nat, ghost p0: seq<Projectile>, ghost ss: seq<Shot>, ghost b0: seq<seq<u8>>, ghost j: nat)
      returns (next: nat, crashed: bool)
      requires Valid() && ShotLoop(p0, ss, b0, j, i) && j < |p0| && ss[j] == ShotOf(p0[j])
      modifies this`projectiles, this`broadcasts
      ensures Valid()
      ensures crashed <==> Fatal(ss[j])
      ensures crashed ==> CrashFrom(ss, 0) < |ss|
      ensures !crashed ==> ShotLoop(p0, ss, b0, j + 1, next)
    {
      ShotLooksAt(p0, ss, j);
      var pr := projectiles[i];
      next := i;
      if pr.using {
        var packet, dead := pr.Death();
        if dead {
          return i, true;
        }
        ShotSplice(i, packet, p0, ss, b0, j);
      } else {
        ShotKeepStep(p0, ss, j);
        next := i + 1;
      }
      crashed := false;
    }

    /** The sweep at a used projectile j of p0, at list position i: its removal packet
        is broadcast and it leaves the list. */
    method ShotSplice(i: nat, packet: seq<u8>, ghost p0: seq<Projectile>, ghost ss: seq<Shot>, ghost b0: seq<seq<u8>>,
                      ghost j: nat)
      requires Valid() && ShotLoop(p0, ss, b0, j, i) && j < |p0| && ss[j].used && !Fatal(ss[j])
      requires packet == RemovedPacket(ss[j].id)
      modifies this`projectiles, this`broadcasts
      ensures Valid() && ShotLoop(p0, ss, b0, j + 1, i)
    {
      ShotRemoveStep(p0, ss, j);
      DistinctSplice(projectiles, i);
      var next := projectiles[..i] + projectiles[i + 1..];
      assert next == ShotProgress(p0, ss, j + 1) && Distinct(next);
      Broadcast(packet);
      projectiles := next;
    }

    /** Energy regeneration: each counted player below its maximum has its timer run down
        by the game's speed and gains one energy when it reaches zero; a player seated
        in two slots regenerates twice. */
    method RegenEnergy()
      requires Valid()
      modifies CountedSet()`energy, CountedSet()`energyTime
      ensures forall q: Player | q in CountedSet() ::
        (q.energy, q.energyTime) == RegenN(old(q.energy), old(q.energyTime), q.maxEnergy, energySpeed, Occ(Counted(), q))
    {
      ghost var qs := Roster(Counted());
      ghost var s := map q: Player | q in qs :: (q.energy, q.energyTime);
      RegenSlots(qs, s);
    }

    /** Regeneration slot by slot, from the energies and timers s. */
    method RegenSlots(ghost qs: set<Player>, ghost s: map<Player, (u16, u16)>)
      requires Valid() && qs == Roster(Counted()) && RegenTo(qs, s, [], energySpeed)
      modifies CountedSet()`energy, CountedSet()`energyTime
      ensures RegenTo(qs, s, Counted(), energySpeed)
    {
      var n := if playerCount < 0 then 0 else playerCount;
      var i := 0;
      while i < n
        invariant i <= n && RegenTo(qs, s, players[..i], energySpeed)
      {
        RegenSlot(i, qs, s);
        i := i + 1;
      }
      assert players[..n] == Counted();
    }

    /** The regeneration of the player in counted slot i. */
    method RegenSlot(i: nat, ghost qs: set<Player>, ghost s: map<Player, (u16, u16)>)
      requires Valid() && i < playerCount && qs == Roster(Counted())
      requires RegenTo(qs, s, players[..i], energySpeed)
      modifies Present(players[i])`energy, Present(players[i])`energyTime
      ensures RegenTo(qs, s, players[..i + 1], energySpeed)
    {
      var p := players[i];
      assert players[..i + 1][..i] == players[..i];
      ghost var before := Occ(players[..i], p);
      assert Occ(players[..i + 1], p) == before + 1;
      RegenOne(p);
      assert p in s && (p.energy, p.energyTime) == RegenN(s[p].0, s[p].1, p.maxEnergy, energySpeed, before + 1);
    }

    /** One regeneration step of a player: below the maximum, the timer runs down by the
        game's speed in uint16, and at zero the player gains one energy and the timer
        restarts. */
    method RegenOne(p: Player)
      modifies p`energy, p`energyTime
      ensures (p.energy, p.energyTime) == RegenStep(old(p.energy), old(p.energyTime), p.maxEnergy, energySpeed)
    {
      if p.energy < p.maxEnergy {
        p.energyTime := Wrap16(p.energyTime - energySpeed);
        if p.energyTime == 0 {
          var _ := p.GetEnergy(1);
          p.energyTime := RegenPeriod;
        }
      }
    }

    /** Each counted player is sent its status packet, in slot order. */
    method SendStatus()
      requires Valid()
      modifies this`sends
      ensures sends == old(sends) + StatusSends(Counted(), frame)
    {
      ghost var ss := StatusSends(Counted(), frame);
      var n := if playerCount < 0 then 0 else playerCount;
      for i := 0 to n
        invariant sends == old(sends) + ss[..i]
      {
        var p := players[i];
        sends := sends + [(p, StatusPacket(p.id, p.energy, p.maxEnergy, frame, p.order, p.deck))];
        assert ss[..i + 1] == ss[..i] + [ss[i]];
      }
      assert ss[..n] == ss;
    }

    /** The board broadcast of an active tick. */
    method BroadcastBoard(bits: real -> u64)
      modifies this`broadcasts
      ensures broadcasts == old(broadcasts) + [old(BoardPacket(units, projectiles, bits))]
    {
      ghost var ud, pd := UnitDatas(units, bits), ProjectileDatas(projectiles, bits);
      var data := BoardData(bits, ud, pd);
      Broadcast(data);
    }

    /** The board packet: opcode 4, the units' records ud, then the projectiles' pd. */
    method BoardData(bits: real -> u64, ghost ud: seq<seq<u8>>, ghost pd: seq<seq<u8>>) returns (data: seq<u8>)
      requires ud == UnitDatas(units, bits) && pd == ProjectileDatas(projectiles, bits)
      ensures data == [4] + Concat(ud) + Concat(pd)
    {
      var ps := ProjectileBytes(bits, pd);
      var us := UnitBytes(bits, ud);
      data := [4] + us + ps;
    }

    /** Each visible unit's record, in list order. */
    method UnitBytes(bits: real -> u64, ghost ud: seq<seq<u8>>) returns (data: seq<u8>)
      requires ud == UnitDatas(units, bits)
      ensures data == Concat(ud)
    {
      data := [];
      var i := 0;
      while i < |units|
        invariant i <= |units|
        invariant data == Concat(ud[..i])
      {
        ConcatSnoc(ud, i);
        var u := units[i];
        var r := u.Data(bits(u.x), bits(u.y));
        assert ud[i] == r;
        data := data + r;
        i := i + 1;
      }
      ConcatAll(ud);
    }

    /** Each projectile's record, in list order. */
    method ProjectileBytes(bits: real -> u64, ghost pd: seq<seq<u8>>) returns (data: seq<u8>)
      requires pd == ProjectileDatas(projectiles, bits)
      ensures data == Concat(pd)
    {
      data := [];
      var i := 0;
      while i < |projectiles|
        invariant i <= |projectiles|
        invariant data == Concat(pd[..i])
      {
        ConcatSnoc(pd, i);
        var pr := projectiles[i];
        var r := pr.Data(bits(pr.x), bits(pr.y));
        assert pd[i] == r;
        data := data + r;
        i := i + 1;
      }
      ConcatAll(pd);
    }

    /** One tick of the match loop: the heartbeat and the roster always, then, in an
        active match, the spawn drain, the units' and projectiles' frames, the two
        sweeps, energy regeneration, the status packets, the board and the frame
        count with its verdicts. `crashed` where a step dereferences an absent owner,
        which ends the tick there. `now` stands for the clock, `bits` for the float64
        bit pattern of a coordinate and `engaged` for whether a unit attacks. */
    method Tick(now: int, bits: real -> u64, engaged: Unit -> bool) returns (crashed: bool)
      requires Valid()
      modifies this, Members(units), Thrown(projectiles), CountedSet(), Present(players[2])
      modifies Owners(spawner), Owned(Snapshot(units))
      ensures Valid()
      ensures old(status) == Room ==>
        !crashed && units == old(units) && projectiles == old(projectiles) && spawner == old(spawner)
        && frame == old(frame) && sends == old(sends)
        && broadcasts == old(broadcasts) + (if HeartbeatStep(old(second)).0 then [[5]] else []) + [RosterPacket(Counted())]
      ensures old(status) == Active && !crashed ==> frame == Wrap64(old(frame) - 1)
    {
      Beat(now);
      crashed := false;
      if status == Active {
        crashed := Play(bits, engaged);
      }
    }

    /** The heartbeat and the roster broadcast, which every tick runs. */
    method Beat(now: int)
      requires Valid()
      modifies this`second, this`broadcasts, CountedSet()`lastTime
      ensures Valid() && Snapshot(units) == old(Snapshot(units))
      ensures second == HeartbeatStep(old(second)).1
      ensures broadcasts == old(broadcasts) + (if HeartbeatStep(old(second)).0 then [[5]] else []) + [RosterPacket(Counted())]
      ensures forall q: Player | q in CountedSet() ::
        q.lastTime == old(q.lastTime) + if HeartbeatStep(old(second)).0 then Repeat(now, Occ(Counted(), q)) else []
    {
      Heartbeat(now);
      BroadcastRoster();
    }

    /** The active part of a tick. */
    method Play(bits: real -> u64, engaged: Unit -> bool) returns (crashed: bool)
      requires Valid()
      modifies this, Members(units), Thrown(projectiles), CountedSet(), Present(players[2])
      modifies Owners(spawner), Owned(Snapshot(units))
      ensures Valid()
      ensures !crashed ==> frame == Wrap64(old(frame) - 1)
    {
      ghost var ps := Owned(Snapshot(units)) + Owners(spawner);
      OwnedWithin(units);
      crashed := Move(bits, engaged, ps);
      if crashed {
        return;
      }
      crashed := Resolve(bits, ps);
    }

    /** The unit sweep, then the rest of the tick. */
    method Resolve(bits: real -> u64, ghost ps: set<Player>) returns (crashed: bool)
      requires Valid() && OwnersWithin(units, ps)
      modifies this`frame, this`units, this`projectiles, this`broadcasts, this`status, this`sends
      modifies Members(units)`owner, Members(units)`team, Members(units)`poison
      modifies ps`deck, ps`maxEnergy, Present(players[2])`deck, Present(players[2])`maxEnergy
      modifies CountedSet()`energy, CountedSet()`energyTime
      ensures Valid()
      ensures !crashed ==> frame == Wrap64(old(frame) - 1)
    {
      var allPoisoned;
      allPoisoned, crashed := Cull(ps);
      if crashed {
        return;
      }
      crashed := Settle(bits, allPoisoned);
    }

    /** The unit sweep, whose owners are among ps. */
    method Cull(ghost ps: set<Player>) returns (allPoisoned: bool, crashed: bool)
      requires Valid() && OwnersWithin(units, ps)
      modifies this`units, this`projectiles, this`broadcasts, this`status
      modifies Members(units)`owner, Members(units)`team, Members(units)`poison
      modifies ps`deck, ps`maxEnergy, Present(players[2])`deck, Present(players[2])`maxEnergy
      ensures Valid()
    {
      OwnersBound(units, ps);
      allPoisoned, crashed := SweepUnits();
    }

    /** The spawn drain and the frames of the units and the projectiles. */
    method Move(bits: real -> u64, engaged: Unit -> bool, ghost ps: set<Player>) returns (crashed: bool)
      requires Valid() && OwnersWithin(units, ps) && Owners(spawner) <= ps
      modifies this`spawner, this`units, this`projectiles, this`objID, this`sends
      modifies Members(units)`health, Members(units)`time, Members(units)`cooltime, Thrown(projectiles)`y, Thrown(projectiles)`using
      modifies ps`deck, ps`maxEnergy, ps`energy
      ensures Valid() && OwnersWithin(units, ps)
      ensures forall u | u in Members(units) :: u in old(Members(units)) || fresh(u)
    {
      Arrive(bits, ps);
      crashed := Frames(engaged, ps);
    }

    /** The spawn drain, whose new units are owned by the owners of queued entries. */
    method Arrive(bits: real -> u64, ghost ps: set<Player>)
      requires Valid() && OwnersWithin(units, ps) && Owners(spawner) <= ps
      modifies this`spawner, this`units, this`projectiles, this`objID, this`sends
      modifies ps`deck, ps`maxEnergy
      ensures Valid() && OwnersWithin(units, ps)
      ensures forall u | u in Members(units) :: u in old(Members(units)) || fresh(u)
      ensures forall p | p in Thrown(projectiles) :: p in old(Thrown(projectiles)) || fresh(p)
    {
      ghost var u0 := units;
      DrainSpawns(bits);
      OwnersExtend(u0, units, ps);
    }

    /** The frames of the units, then, short of a crash, of the projectiles. */
    method Frames(engaged: Unit -> bool, ghost ps: set<Player>) returns (crashed: bool)
      requires Valid() && OwnersWithin(units, ps)
      modifies Members(units)`health, Members(units)`time, Members(units)`cooltime, Thrown(projectiles)`y, Thrown(projectiles)`using
      modifies ps`energy
      ensures OwnersWithin(units, ps)
    {
      OwnersBound(units, ps);
      crashed := UnitFrames(engaged);
      if crashed {
        return;
      }
      ProjectileFrames();
    }

    /** The projectile sweep, then the rest of the tick. */
    method Settle(bits: real -> u64, allPoisoned: bool) returns (crashed: bool)
      requires Valid()
      modifies this`frame, this`units, this`projectiles, this`broadcasts, this`status, this`sends
      modifies CountedSet()`energy, CountedSet()`energyTime
      ensures Valid()
      ensures !crashed ==> frame == Wrap64(old(frame) - 1)
    {
      crashed := SweepProjectiles();
      if crashed {
        return;
      }
      Report(bits, allPoisoned);
    }

    /** Regeneration and the status packets, then the board and the end of the tick. */
    method Report(bits: real -> u64, allPoisoned: bool)
      requires Valid()
      modifies this`frame, this`units, this`projectiles, this`broadcasts, this`status, this`sends
      modifies CountedSet()`energy, CountedSet()`energyTime
      ensures Valid() && frame == Wrap64(old(frame) - 1)
    {
      RegenEnergy();
      SendStatus();
      Publish(bits, allPoisoned);
    }

    /** The board, then the end of the tick. */
    method Publish(bits: real -> u64, allPoisoned: bool)
      requires Valid()
      modifies this`frame, this`units, this`projectiles, this`broadcasts, this`status
      ensures Valid() && frame == Wrap64(old(frame) - 1)
    {
      BroadcastBoard(bits);
      Conclude(allPoisoned);
    }

    /** The end of an active tick: the frame budget counts down, all units on team 2
        end the match with team 2's win, and an exhausted budget ends it with team 0's. */
    method Conclude(allPoisoned: bool)
      requires Valid()
      modifies this`frame, this`units, this`projectiles, this`broadcasts, this`status
      ensures Valid()
      ensures frame == Wrap64(old(frame) - 1) && broadcasts == old(broadcasts) + Verdict(allPoisoned, frame)
      ensures allPoisoned || frame == 0 ==> units == [] && projectiles == [] && status == Room
      ensures !allPoisoned && frame != 0 ==>
        units == old(units) && projectiles == old(projectiles) && status == old(status)
    {
      frame := Wrap64(frame - 1);
      if allPoisoned {
        End(2);
      }
      if frame == 0 {
        End(0);
      }
    }

    /** Spawn: queue a placement. */
    method Spawn(e: Spawn)
      requires Valid()
      modifies this`spawner
      ensures Valid() && spawner == old(spawner) + [e]
    {
      spawner := spawner + [e];
    }

    /** Card.UseCard: a card is admitted when it is affordable with `cost` and the
        player's team may place it at x; it then queues one placement per entry of its
        spawn list, at (x, 0) with delay `time`, and nothing otherwise. */
    method UseCard(c: Card, p: Player, cost: u16, x: int, time: u8) returns (ok: bool)
      requires Valid()
      modifies this`spawner
      ensures Valid()
      ensures ok == c.Usable(cost, p.team, x)
      ensures ok ==> spawner == old(spawner) + Placements(c, p, x, time)
      ensures !ok ==> spawner == old(spawner)
    {
      if c.cost > cost {
        return false;
      }
      if c.isCollision {
        if p.team == 0 {
          if x < -50 || x as real + c.width > 50.0 {
            return false;
          }
        } else if p.team == 1 {
          if x > -50 && x as real + c.width < 50.0 {
            return false;
          }
        }
      }
      for i := 0 to |c.spawnList|
        invariant Valid()
        invariant spawner == old(spawner) + Placements(c, p, x, time)[..i]
      {
        Spawn(Session.Spawn(p, x as real, 0.0, time, c.spawnList[i]));
        assert Placements(c, p, x, time)[..i + 1]
            == Placements(c, p, x, time)[..i] + [Placements(c, p, x, time)[i]];
      }
      assert Placements(c, p, x, time)[..|c.spawnList|] == Placements(c, p, x, time);
      ok := true;
    }
  }

  /** The placements a card queues: one per spawn-list entry, in order. */
  function Placements(c: Card, p: Player, x: int, time: u8): (r: seq<Spawn>)
    ensures |r| == |c.spawnList|
    ensures forall i | 0 <= i < |r| ::
      r[i].owner == p && r[i].x == x as real && r[i].y == 0.0 && r[i].time == time
      && r[i].obj == c.spawnList[i]
  {
    seq(|c.spawnList|, i requires 0 <= i < |c.spawnList| =>
      Session.Spawn(p, x as real, 0.0, time, c.spawnList[i]))
  }

  /** Whether the dispatch takes command `op` in match status `status`. */
  predicate Admits(op: u8, status: u8) {
    if op == 0 || op == 1 || op == 2 || op == 4 then status != Active
    else if op == 3 then status != Room
    else op == 5
  }

  /** Go's integer division, which truncates toward zero: the remainder a - r * b has
      the sign of a and is smaller than b in magnitude. */
  function TruncDiv(a: int, b: int): (r: int)
    requires b > 0
    ensures a >= 0 ==> 0 <= a - r * b < b
    ensures a < 0 ==> -b < a - r * b <= 0
  {
    if a >= 0 then a / b else -((-a) / b)
  }

  /** The spawn delay of a played card: 80 frames less the player's latency in frames
      (milliseconds * 60 / 1000, in int64 arithmetic), computed in uint8. */
  function WaitFrame(ping: int): u8 {
    Wrap8(80 - Wrap8(TruncDiv(TruncDiv(ping, 1_000_000) * 60, 1000)))
  }

  /** Up to 1.35 s of latency, the delay is 80 frames less the latency in whole frames,
      so a slower player's card lands no later than a faster player's would. */
  lemma WaitFrameCompensates(ping: int)
    requires 0 <= ping < 1_350_000_000
    ensures WaitFrame(ping) == 80 - (ping / 1_000_000) * 60 / 1000
    ensures WaitFrame(ping) <= 80
  {
    var ms := ping / 1_000_000;
    assert ms <= 1349;
    assert ms * 60 / 1000 <= 80;
  }

  /** From 1.35 s of latency on, the uint8 subtraction wraps: the delay jumps from 0 to
      255 frames. */
  lemma WaitFrameWraps()
    ensures WaitFrame(1_349_999_999) == 0
    ensures WaitFrame(1_350_000_000) == 255
  {
  }

  /** A negative latency (a clock step backwards) lengthens the delay past 80 frames. */
  lemma WaitFrameNegativePing()
    ensures WaitFrame(-1_000_000_000) == 140
  {
  }

  /** What the drain builds from a unit placement: a unit of the recipe's kind, bound to
      the entry's owner and team with the placement's id, visible, centred on the entry's
      x (BigPencil and PaintBrush at height 0.5), at full health. */
  ghost predicate UnitMade(u: Unit, e: Spawn, id: u16)
    reads u, e.owner`team
  {
    e.obj.MakeUnit? && u.kind == e.obj.kind && u.owner == e.owner && u.id == id
    && u.team == e.owner.team && u.isVisible && u.health == MaxHealth(u.kind) && u.Mirrored()
    && u.x == e.x - Width(u.kind) / 2.0
    && u.y == (if u.kind.BigPencil? || u.kind.PaintBrush? then 0.5 else e.y)
    && (Faces(u.kind) ==> u.isReverse == FacesBack(u.team, u.x))
  }

  /** What the drain builds from a thrower placement: a thrower with the recipe's height,
      type and magic, bound to the entry's owner and team with the placement's id, at the
      entry's x and at its own height, not yet used. */
  ghost predicate ThrowerMade(q: Projectile, e: Spawn, id: u16)
    reads q, e.owner`team
  {
    e.obj.MakeThrower? && q.height == e.obj.height && q.typeid == e.obj.typeid
    && q.magic == e.obj.magic && q.owner == e.owner && q.id == id && q.team == e.owner.team
    && !q.using && q.x == e.x && q.y == q.height
  }
}
