/** Units on the board: health and poison arithmetic, the conversion to team 2, the
    Note and Bag subsidies, the Flask timer and the cooldown counters, and the unit
    record (object/games/unit.go). */
module Units {
  import opened Bytes
  import opened Entities
  import opened Cards
  import opened Players

  /** The team whose units have been converted by poison. */
  const PoisonTeam: u8 := 2

  /** One unit. The Go variants embed a common Unit struct; here the variant is the
      `kind` tag and its constants (typeid, maxHealth, width, mcooltime) are functions
      of the kind. `time` is Flask's timer and `cooltime` the cooldown counter of the
      units that have one. */
  class Unit {
    const kind: UnitKind
    var owner: Player?
    var id: u16
    var team: u8
    var health: u32
    var poison: u32
    var isVisible: bool
    var isReverse: bool
    var x: real
    var y: real
    var time: int
    var cooltime: u8

    /** NewEarth, NewFlask, ...: full health, not yet bound to a player. */
    constructor (k: UnitKind)
      ensures kind == k && owner == null && id == 0 && team == 0
      ensures health == MaxHealth(k) && poison == 0 && !isVisible && !isReverse
      ensures x == (if k.Earth? then -3.0 else 0.0) && y == 0.0
      ensures time == (if k.Flask? then FlaskPeriod else 0) && cooltime == 0
      ensures Mirrored()
    {
      kind := k;
      owner, id, team := null, 0, 0;
      health, poison := MaxHealth(k), 0;
      isVisible, isReverse := false, false;
      x := if k.Earth? then -3.0 else 0.0;
      y := 0.0;
      time := if k.Flask? then FlaskPeriod else 0;
      cooltime := 0;
    }

    /** A converted unit's poison tracks its health. */
    predicate Mirrored()
      reads this
    {
      team == PoisonTeam ==> poison == health
    }

    predicate IsPoisoned()
      reads this
    {
      health <= poison
    }

    predicate IsDead()
      reads this
    {
      health == 0
    }

    /** GetDamage: no effect from the unit's own team; team 2 adds to poison (uint32
        arithmetic); any other team takes health down, stopping at zero, and a
        converted unit's poison follows its health. */
    method GetDamage(d: u32, t: u8)
      modifies this`health, this`poison
      ensures t == team ==> health == old(health) && poison == old(poison)
      ensures t != team && t == PoisonTeam ==>
        health == old(health) && poison == Wrap32(old(poison) + d)
      ensures t != team && t != PoisonTeam ==>
        health == (if old(health) < d then 0 else old(health) - d)
        && poison == (if team == PoisonTeam && old(health) > 0 then health else old(poison))
      ensures health <= old(health)
      ensures old(Mirrored()) ==> Mirrored()
    {
      if t == team {
        return;
      }
      if t == PoisonTeam {
        poison := Wrap32(poison + d);
      } else if health > 0 {
        if health < d {
          health := 0;
        } else {
          health := health - d;
        }
        if team == PoisonTeam {
          poison := health;
        }
      }
    }

    /** GetHeal: only from the unit's own team; health grows (uint32 arithmetic) and is
        capped at the kind's maximum; a converted unit's poison follows its health. */
    method GetHeal(h: u32, t: u8)
      modifies this`health, this`poison
      ensures t != team ==> health == old(health) && poison == old(poison)
      ensures t == team ==> health == Cap32(Wrap32(old(health) + h), MaxHealth(kind))
      ensures t == team && old(health) + h < 0x1_0000_0000 ==>
        health == if old(health) + h > MaxHealth(kind) then MaxHealth(kind) else old(health) + h
      ensures t == team ==> health <= MaxHealth(kind)
      ensures t == team ==> poison == if team == PoisonTeam then health else old(poison)
      ensures old(Mirrored()) ==> Mirrored()
    {
      if t != team {
        return;
      }
      health := Wrap32(health + h);
      if health > MaxHealth(kind) {
        health := MaxHealth(kind);
      }
      if team == PoisonTeam {
        poison := health;
      }
    }

    /** Run: bind the unit to its owner, id and team and make it visible; then the
        variant's own start-up: Note charges its subsidy on every card of the owner's
        deck, Bag raises the owner's maxEnergy, the facing units look towards the other
        side of the arena, and BigPencil and PaintBrush go to height 0.5. */
    method Run(p: Player, newId: u16)
      modifies this`owner, this`id, this`team, this`poison, this`isVisible
      modifies this`isReverse, this`y, p`deck, p`maxEnergy
      ensures owner == p && id == newId && team == p.team && isVisible
      ensures poison == if team == PoisonTeam then health else old(poison)
      ensures Mirrored()
      ensures p.deck == if kind.Note? then SubAll(old(p.deck), kind.subEnergy) else old(p.deck)
      ensures p.maxEnergy ==
        if kind.Bag? then Wrap16(old(p.maxEnergy) + kind.addEnergy) else old(p.maxEnergy)
      ensures isReverse == if Faces(kind) then FacesBack(team, x) else old(isReverse)
      ensures y == if kind.BigPencil? || kind.PaintBrush? then 0.5 else old(y)
    {
      owner := p;
      id := newId;
      team := p.team;
      if team == PoisonTeam {
        poison := health;
      }
      isVisible := true;
      match kind {
        case Note(k) =>
          p.SubCostAll(k);
        case Bag(a) =>
          p.maxEnergy := Wrap16(p.maxEnergy + a);
        case BigPencil =>
          isReverse := FacesBack(team, x);
          y := 0.5;
        case Sharpener =>
          isReverse := FacesBack(team, x);
        case PaintBrush =>
          isReverse := FacesBack(team, x);
          y := 0.5;
        case _ =>
      }
    }

    /** Poisoned: the unit changes hands to the game's slot-2 player (`slot2`, possibly
        absent) and joins team 2. Note moves its subsidy: refunded on the old owner's
        deck, charged on the new owner's. Bag moves its maxEnergy bonus the same way.
        `crashed` is where the source dereferences an absent player: a unit without
        owner, or a Note or Bag whose new owner is absent. */
    method Poisoned(slot2: Player?) returns (crashed: bool)
      modifies this`owner, this`team, this`poison
      modifies Present(owner)`deck, Present(owner)`maxEnergy
      modifies Present(slot2)`deck, Present(slot2)`maxEnergy
      ensures crashed <==> old(owner) == null || ((kind.Note? || kind.Bag?) && slot2 == null)
      ensures !crashed ==> owner == slot2 && team == PoisonTeam && poison == health && Mirrored()
      ensures !crashed && kind.Note? && old(owner) != slot2 ==>
        old(owner).deck == AddAll(old(owner.deck), kind.subEnergy)
        && slot2.deck == SubAll(old(slot2.deck), kind.subEnergy)
      ensures !crashed && kind.Note? && old(owner) == slot2 ==>
        slot2.deck == SubAll(AddAll(old(slot2.deck), kind.subEnergy), kind.subEnergy)
      ensures !crashed && kind.Bag? && old(owner) != slot2 ==>
        old(owner).maxEnergy == Wrap16(old(owner.maxEnergy) - kind.addEnergy)
        && slot2.maxEnergy == Wrap16(old(slot2.maxEnergy) + kind.addEnergy)
      ensures !crashed && kind.Bag? && old(owner) == slot2 ==>
        slot2.maxEnergy == Wrap16(Wrap16(old(slot2.maxEnergy) - kind.addEnergy) + kind.addEnergy)
      ensures !crashed && !kind.Note? ==> (old(owner).deck == old(owner.deck) && (slot2 != null ==> slot2.deck == old(slot2.deck)))
      ensures !crashed && !kind.Bag? ==>
        (old(owner).maxEnergy == old(owner.maxEnergy)
         && (slot2 != null ==> slot2.maxEnergy == old(slot2.maxEnergy)))
    {
      if owner == null {
        return true;
      }
      var prev := owner;
      match kind {
        case Note(k) =>
          prev.AddCostAll(k);
        case Bag(a) =>
          prev.maxEnergy := Wrap16(prev.maxEnergy - a);
        case _ =>
      }
      owner := slot2;
      team := PoisonTeam;
      poison := health;
      if (kind.Note? || kind.Bag?) && slot2 == null {
        return true;
      }
      match kind {
        case Note(k) =>
          slot2.SubCostAll(k);
        case Bag(a) =>
          slot2.maxEnergy := Wrap16(slot2.maxEnergy + a);
        case _ =>
      }
      crashed := false;
    }

    /** Death: the removal packet for the game to broadcast; then Note refunds its
        subsidy to the current owner's deck and Bag withdraws its maxEnergy bonus.
        `crashed` is where the source dereferences an absent owner. Earth's ending of
        the match is done by the game's sweep. */
    method Death() returns (packet: seq<u8>, crashed: bool)
      modifies Present(owner)`deck, Present(owner)`maxEnergy
      ensures packet == RemovedPacket(id)
      ensures crashed <==> owner == null
      ensures !crashed ==>
        owner.deck == (if kind.Note? then AddAll(old(owner.deck), kind.subEnergy) else old(owner.deck))
        && owner.maxEnergy ==
             (if kind.Bag? then Wrap16(old(owner.maxEnergy) - kind.addEnergy) else old(owner.maxEnergy))
    {
      packet := RemovedPacket(id);
      if owner == null {
        return packet, true;
      }
      match kind {
        case Note(k) =>
          owner.AddCostAll(k);
        case Bag(a) =>
          owner.maxEnergy := Wrap16(owner.maxEnergy - a);
        case _ =>
      }
      crashed := false;
    }

    /** The per-frame step: a unit outside the arena loses all its health; Flask's
        timer grants its owner one energy
        every FlaskPeriod frames; BigPencil, Sharpener and PaintBrush fire when their
        cooldown is zero and they are `engaged` (they hold a live target of the right
        team inside their detection area, which the spatial index decides), then reload.
        `crashed` is a frame that reaches through an absent owner (ReachesOwner); the
        frame stops there. */
    method Frame(engaged: bool) returns (fired: bool, crashed: bool)
      modifies this`health, this`time, this`cooltime, Present(owner)`energy
      ensures health == if OutOfArena(x, y) then 0 else old(health)
      ensures !crashed && kind.Flask? ==> time == FlaskStep(old(time)).0
      ensures !kind.Flask? ==> time == old(time)
      ensures crashed <==> owner == null && ReachesOwner(kind, old(time), old(cooltime), engaged)
      ensures owner != null ==>
        owner.energy ==
          if kind.Flask? && FlaskStep(old(time)).1
          then Clamp(Wrap16(old(owner.energy) + 1), owner.maxEnergy)
          else old(owner.energy)
      ensures !crashed && MaxCooltime(kind) > 0 ==>
        (cooltime, fired) == CoolStep(old(cooltime), engaged, MaxCooltime(kind))
      ensures MaxCooltime(kind) == 0 ==> cooltime == old(cooltime) && !fired
    {
      fired, crashed := false, false;
      if OutOfArena(x, y) {
        health := 0;
      }
      if kind.Flask? {
        time := time - 1;
        if time <= 0 {
          if owner == null {
            return false, true;
          }
          var _ := owner.GetEnergy(1);
          time := FlaskPeriod;
        }
      }
      if kind.Alarm? && owner == null {
        // the damage magic runs through the owner's game on every frame
        return false, true;
      }
      if MaxCooltime(kind) > 0 {
        if cooltime == 0 && engaged {
          if owner == null && (kind.BigPencil? || kind.Sharpener?) {
            // the shot (damage magic, or a Bullet spawn) goes through the owner's game
            return false, true;
          }
          fired := true;
          cooltime := MaxCooltime(kind);
        }
        if cooltime > 0 {
          cooltime := cooltime - 1;
        }
      }
    }

    /** Status: bit 0 is the facing. */
    function Status(): (r: u8)
      reads this
      ensures r < 2 && (r == 1 <==> isReverse)
    {
      if isReverse then 1 else 0
    }

    /** Data: nothing for an invisible unit, otherwise the 34-byte record: id, typeid,
        team, the float64 bit patterns of X and Y (given, since IEEE encoding is not
        modelled), health, maxHealth, poison, status. What each field reads back as is
        UnitDataFields. */
    function Data(xBits: u64, yBits: u64): (r: seq<u8>)
      reads this
      ensures r == [] <==> !isVisible
      ensures isVisible ==> |r| == 34
    {
      if !isVisible then []
      else
        BE16(id) + BE16(TypeId(kind)) + [team] + BE64(xBits) + BE64(yBits)
        + BE32(health) + BE32(MaxHealth(kind)) + BE32(poison) + [Status()]
    }
  }

  /** Every field of a visible unit's record reads back from its offset. */
  lemma UnitDataFields(u: Unit, xBits: u64, yBits: u64)
    requires u.isVisible
    ensures var r := u.Data(xBits, yBits);
      |r| == 34 && Read16(r[..2]) == u.id && Read16(r[2..4]) == TypeId(u.kind) && r[4] == u.team
      && Read64(r[5..13]) == xBits && Read64(r[13..21]) == yBits
      && Read32(r[21..25]) == u.health && Read32(r[25..29]) == MaxHealth(u.kind)
      && Read32(r[29..33]) == u.poison && r[33] == u.Status()
  {
    var a, b, c := BE16(u.id), BE16(TypeId(u.kind)), [u.team];
    var d, e := BE64(xBits), BE64(yBits);
    var f, g, h := BE32(u.health), BE32(MaxHealth(u.kind)), BE32(u.poison);
    var r := a + b + c + d + e + f + g + h + [u.Status()];
    assert r == u.Data(xBits, yBits);
    assert r[..2] == a && r[2..4] == b && r[5..13] == d && r[13..21] == e;
    assert r[21..25] == f && r[25..29] == g && r[29..33] == h;
    ReadBE16(u.id); ReadBE16(TypeId(u.kind));
    ReadBE64(xBits); ReadBE64(yBits);
    ReadBE32(u.health); ReadBE32(MaxHealth(u.kind)); ReadBE32(u.poison);
  }

  /** The facing rule of Run: a team-0 unit placed right of centre, or a unit of any
      other team placed left of it, is reversed. */
  predicate FacesBack(team: u8, x: real) {
    if team == 0 then x > 0.0 else x < 0.0
  }

  /** Whether a unit's Frame reaches through its owner, given the Flask timer, the
      cooldown counter and whether it is engaged: a Flask grant falls due, an Alarm runs
      its damage magic (every frame), or a BigPencil or a Sharpener fires. */
  predicate ReachesOwner(kind: UnitKind, time: int, cooltime: u8, engaged: bool) {
    (kind.Flask? && FlaskStep(time).1)
    || kind.Alarm?
    || ((kind.BigPencil? || kind.Sharpener?) && CoolStep(cooltime, engaged, MaxCooltime(kind)).1)
  }

  /** The arena bound of Frame: more than 80 from the centre on either axis. */
  predicate OutOfArena(x: real, y: real) {
    Abs(x) > 80.0 || Abs(y) > 80.0
  }

  function Abs(v: real): real {
    if v < 0.0 then -v else v
  }

  /** The player, as a frame: nothing when absent. */
  function Present(p: Player?): set<Player> {
    if p == null then {} else {p}
  }

  function Cap32(v: u32, max: u32): u32 {
    if v > max then max else v
  }

  /** The removal packet (opcode 6, then the id) broadcast when a unit or a
      projectile dies. */
  function RemovedPacket(id: u16): (r: seq<u8>)
    ensures |r| == 3 && r[0] == 6 && Read16(r[1..]) == id
  {
    var r := [6] + BE16(id);
    assert r[1..] == BE16(id);
    r
  }

  // ---- the Flask timer ----

  /** One frame of Flask's timer: the new timer and whether energy is granted. */
  function FlaskStep(time: int): (r: (int, bool))
    ensures 1 <= time <= FlaskPeriod ==> 1 <= r.0 <= FlaskPeriod
    ensures r.1 ==> r.0 == FlaskPeriod
  {
    if time - 1 <= 0 then (FlaskPeriod, true) else (time - 1, false)
  }

  /** The number of grants over n frames. */
  function FlaskGrants(time: int, n: nat): nat
    decreases n
  {
    if n == 0 then 0
    else (if FlaskStep(time).1 then 1 else 0) + FlaskGrants(FlaskStep(time).0, n - 1)
  }

  lemma {:induction false} FlaskGrantsFrom(t: int, n: nat)
    requires 1 <= t <= FlaskPeriod
    ensures FlaskGrants(t, n) == if n < t then 0 else 1 + (n - t) / FlaskPeriod
    decreases n
  {
    if n > 0 {
      if t == 1 {
        FlaskGrantsFrom(FlaskPeriod, n - 1);
        if n - 1 >= FlaskPeriod {
          assert (n - 1) / FlaskPeriod == 1 + (n - 1 - FlaskPeriod) / FlaskPeriod;
        }
      } else {
        FlaskGrantsFrom(t - 1, n - 1);
      }
    }
  }

  /** A fresh Flask grants exactly one energy per 300 frames: n / 300 grants in n frames. */
  lemma FlaskGrantsEveryPeriod(n: nat)
    ensures FlaskGrants(FlaskPeriod, n) == n / FlaskPeriod
  {
    FlaskGrantsFrom(FlaskPeriod, n);
    if n >= FlaskPeriod {
      assert n / FlaskPeriod == 1 + (n - FlaskPeriod) / FlaskPeriod;
    }
  }

  // ---- the cooldown counters ----

  /** One frame of a cooldown counter with reload time m: fire when the counter is zero
      and a target is engaged, reload to m, then count down by one while positive. */
  function CoolStep(c: u8, engaged: bool, m: u8): (r: (u8, bool))
    ensures c > 0 ==> !r.1
    ensures r.1 ==> engaged && r.0 == if m > 0 then m - 1 else 0
  {
    var fire := c == 0 && engaged;
    var c1 := if fire then m else c;
    (if c1 > 0 then c1 - 1 else c1, fire)
  }

  /** Whether the unit fires in each frame, given whether it is engaged in each frame. */
  function Fires(c: u8, engaged: seq<bool>, m: u8): (r: seq<bool>)
    ensures |r| == |engaged|
    decreases |engaged|
  {
    if engaged == [] then []
    else [CoolStep(c, engaged[0], m).1] + Fires(CoolStep(c, engaged[0], m).0, engaged[1..], m)
  }

  /** While the counter is positive it cannot fire: from counter c, none of the next c
      frames fires, whatever the engagement. */
  lemma {:induction false} CoolingHolds(c: u8, engaged: seq<bool>, m: u8)
    ensures forall j | 0 <= j < c && j < |engaged| :: !Fires(c, engaged, m)[j]
    decreases |engaged|
  {
    if engaged != [] && c > 0 {
      CoolingHolds(c - 1, engaged[1..], m);
    }
  }

  /** Two firings are at least m frames apart. */
  lemma CooldownSpacing(c: u8, engaged: seq<bool>, m: u8, i: nat, j: nat)
    requires m >= 1 && i < j < |engaged|
    requires Fires(c, engaged, m)[i] && Fires(c, engaged, m)[j]
    ensures j - i >= m
  {
    FiresSuffix(c, engaged, m, i);
    var s := CounterAfter(c, engaged, m, i);
    assert CoolStep(s, engaged[i], m) == (m - 1, true);
    FiresSuffix(c, engaged, m, i + 1);
    CoolingHolds(m - 1, engaged[i + 1..], m);
    assert Fires(m - 1, engaged[i + 1..], m)[j - i - 1];
  }

  /** The counter after the first k frames. */
  function CounterAfter(c: u8, engaged: seq<bool>, m: u8, k: nat): u8
    requires k <= |engaged|
    decreases k
  {
    if k == 0 then c else CounterAfter(CoolStep(c, engaged[0], m).0, engaged[1..], m, k - 1)
  }

  lemma {:induction false} FiresSuffix(c: u8, engaged: seq<bool>, m: u8, k: nat)
    requires k <= |engaged|
    ensures Fires(c, engaged, m)[k..] == Fires(CounterAfter(c, engaged, m, k), engaged[k..], m)
    decreases k
  {
    if k > 0 {
      FiresSuffix(CoolStep(c, engaged[0], m).0, engaged[1..], m, k - 1);
      assert engaged[1..][k - 1..] == engaged[k..];
    }
  }

  /** Engaged in every frame, a unit starting from counter c < m fires in frame c and
      then every m frames. */
  lemma {:induction false} FiresPeriodically(c: u8, engaged: seq<bool>, m: u8)
    requires c < m
    requires forall j | 0 <= j < |engaged| :: engaged[j]
    ensures forall j | 0 <= j < |engaged| ::
              Fires(c, engaged, m)[j] <==> j >= c && (j - c) % m == 0
    decreases |engaged|
  {
    if engaged != [] {
      var next := CoolStep(c, true, m).0;
      assert next == if c == 0 then m - 1 else c - 1;
      FiresPeriodically(next, engaged[1..], m);
      var f, g := Fires(c, engaged, m), Fires(next, engaged[1..], m);
      forall j | 0 <= j < |engaged|
        ensures f[j] <==> j >= c && (j - c) % m == 0
      {
        if j == 0 {
          assert f[0] <==> c == 0;
          PhaseZero(c, m);
        } else {
          assert f[j] == g[j - 1];
          PhaseStep(c, next, m, j);
        }
      }
    }
  }

  /** In the first frame the phase matches exactly when the counter starts at zero. */
  lemma PhaseZero(c: int, m: int)
    requires 0 <= c < m
    ensures (0 >= c && (0 - c) % m == 0) <==> c == 0
  {
  }

  /** One frame later the phase of the firing pattern moves by one. */
  lemma PhaseStep(c: int, next: int, m: int, j: int)
    requires 0 <= c < m && j >= 1
    requires next == if c == 0 then m - 1 else c - 1
    ensures (j - 1 >= next && (j - 1 - next) % m == 0) <==> (j >= c && (j - c) % m == 0)
  {
    if c == 0 {
      ModShift(j - m, m);
      assert j - 1 - next == j - m;
    }
  }

  lemma ModShift(a: int, m: int)
    requires m > 0
    ensures (a + m) % m == a % m
  {
    var q, r := a / m, a % m;
    assert a + m == (q + 1) * m + r;
    var q2, r2 := (a + m) / m, (a + m) % m;
    var k := q + 1 - q2;
    assert k * m == r2 - r;
  }

  // ---- the subsidies over a unit's life ----

  /** Bag's bonus is withdrawn exactly: adding a and later subtracting a (uint16
      arithmetic) gives back the original maxEnergy, whatever the wrap-around. */
  lemma BagBonusRoundTrip(m: u16, a: u16)
    ensures Wrap16(Wrap16(m + a) - a) == m
    ensures Wrap16(Wrap16(m - a) + a) == m
  {
    if m + a >= 0x1_0000 {
      assert Wrap16(m + a) == m + a - 0x1_0000;
    }
    if m - a < 0 {
      assert Wrap16(m - a) == m - a + 0x1_0000;
    }
  }

  /** Poisoning a Note owned by the slot-2 player itself leaves that deck as it was. */
  lemma NoteSelfTransferRestores(d: seq<Card>, k: u16)
    requires forall i | 0 <= i < |d| :: d[i].Balanced() && d[i].cost + k < 0x1_0000
    ensures SubAll(AddAll(d, k), k) == d
  {
    forall i | 0 <= i < |d|
      ensures SubAll(AddAll(d, k), k)[i] == d[i]
    {
      AddThenSubRestores(d[i], k);
    }
  }

  /** A converted unit is poisoned for as long as it keeps its mirror: the sweep's
      `team != 2` test is what stops it from being converted twice. */
  lemma ConvertedStaysPoisoned(u: Unit)
    requires u.team == PoisonTeam && u.Mirrored()
    ensures u.IsPoisoned()
  {
  }
}
