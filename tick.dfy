/** The per-tick bookkeeping of the match loop (object/games/game.go, Frame) as pure
    functions: the heartbeat countdown, the status packet each counted player is sent
    during a match, and the board packet every counted player receives. */
module Ticks {
  import opened Bytes
  import opened Entities
  import opened Cards
  import opened Players
  import opened Units
  import opened Sweeps
  import opened Projectiles
  import opened Session

  // ---- the heartbeat ----

  /** Ticks between two heartbeats: the countdown's start and restart value. */
  const HeartbeatFrames: int := 60

  /** One tick of the heartbeat countdown: whether the heartbeat ([5], which starts a
      latency measurement) goes out on this tick, and the countdown after it. */
  function HeartbeatStep(second: int): (r: (bool, int))
    ensures 0 <= second < HeartbeatFrames ==> 0 <= r.1 < HeartbeatFrames
    ensures r.0 ==> r.1 == HeartbeatFrames - 1
  {
    if second < 1 then (true, HeartbeatFrames - 1) else (false, second - 1)
  }

  /** n ticks of the countdown from `second`: the heartbeats sent, and the countdown
      after them. */
  function HeartbeatN(second: int, n: nat): (nat, int) {
    if n == 0 then (0, second)
    else
      var prev := HeartbeatN(second, n - 1);
      var step := HeartbeatStep(prev.1);
      (prev.0 + (if step.0 then 1 else 0), step.1)
  }

  /** From a countdown at s, the first heartbeat goes out on tick s + 1 and leaves the
      countdown at 59: the loop, which starts at 60, beats first on tick 61 and from then
      on every 60 ticks. */
  lemma {:induction false} HeartbeatCountsDown(s: int, n: nat)
    requires 0 <= s && n <= s + 1
    ensures HeartbeatN(s, n) == if n <= s then (0, s - n) else (1, HeartbeatFrames - 1)
    decreases n
  {
    if n > 0 {
      HeartbeatCountsDown(s, n - 1);
    }
  }

  /** n copies of a timestamp, as the heartbeat appends them to a player's send times:
      one per counted slot the player sits in. */
  function Repeat(t: int, n: nat): (r: seq<int>)
    ensures |r| == n && forall k | 0 <= k < n :: r[k] == t
  {
    if n == 0 then [] else Repeat(t, n - 1) + [t]
  }

  /** Each player of qs, whose send times were s[q], has been stamped with `now` once
      for each of its slots among ps. */
  ghost predicate StampedTo(qs: set<Player>, s: map<Player, seq<int>>, ps: seq<Player?>, now: int)
    reads qs
  {
    forall q | q in qs :: q in s && q.lastTime == s[q] + Repeat(now, Occ(ps, q))
  }

  // ---- the roster packet ----

  /** The players of a list of slots. */
  function Roster(ps: seq<Player?>): set<Player> {
    set q: Player | q in ps
  }

  /** Each slot's 23-byte roster record. */
  function RosterDatas(ps: seq<Player?>): (r: seq<seq<u8>>)
    reads Roster(ps)
    ensures |r| == |ps| && forall k | 0 <= k < |ps| :: r[k] == if ps[k] == null then [] else ps[k].Data()
  {
    seq(|ps|, k requires 0 <= k < |ps| reads Roster(ps) => if ps[k] == null then [] else ps[k].Data())
  }

  /** The roster packet sent every tick: opcode 0, then each counted player's record. */
  function RosterPacket(ps: seq<Player?>): seq<u8>
    reads Roster(ps)
  {
    [0] + Concat(RosterDatas(ps))
  }

  /** The roster packet holds 23 bytes per counted player, the k-th player's record at
      byte 1 + 23k. */
  lemma RosterLayout(ps: seq<Player?>, k: nat)
    requires forall i | 0 <= i < |ps| :: ps[i] != null
    requires k < |ps|
    ensures var r := RosterPacket(ps);
      |r| == 1 + 23 * |ps| && r[1 + 23 * k .. 24 + 23 * k] == ps[k].Data()
  {
    var rs := RosterDatas(ps);
    assert RosterPacket(ps) == [0] + Concat(rs);
    assert forall i | 0 <= i < |rs| :: |rs[i]| == 23;
    RosterRecordsLayout(rs, k);
    assert rs[k] == ps[k].Data();
  }

  /** The same layout over the records themselves. */
  lemma RosterRecordsLayout(rs: seq<seq<u8>>, k: nat)
    requires forall i | 0 <= i < |rs| :: |rs[i]| == 23
    requires k < |rs|
    ensures var r := [0] + Concat(rs);
      |r| == 1 + 23 * |rs| && r[1 + 23 * k .. 24 + 23 * k] == rs[k]
  {
    ConcatUniform(rs, 23);
    ConcatAt(rs, 23, k);
    SlicePast([0], Concat(rs), 23 * k, 23 * k + 23);
  }

  // ---- the units' frame ----

  /** What a unit's Frame reads and changes: its kind, its owner, the Flask timer, the
      attack cool-down, its health and whether it stands outside the arena. */
  datatype Clock = Clock(kind: UnitKind, owner: Player?, time: int, cooltime: u8, health: u32, out: bool)

  ghost function ClockOf(u: Unit): Clock
    reads u
  {
    Clock(u.kind, u.owner, u.time, u.cooltime, u.health, OutOfArena(u.x, u.y))
  }

  /** The clocks of a list of units now. */
  ghost function Clocks(us: seq<Unit>): (r: seq<Clock>)
    reads Members(us)
    ensures |r| == |us| && forall k | 0 <= k < |us| :: r[k] == ClockOf(us[k])
  {
    seq(|us|, k requires 0 <= k < |us| reads Members(us) => ClockOf(us[k]))
  }

  /** The owners among a list of clocks. */
  function ClockOwners(cs: seq<Clock>): set<Player> {
    set k | 0 <= k < |cs| && cs[k].owner != null :: cs[k].owner
  }

  /** A unit's clock after one Frame, given whether it is engaged: a Flask's timer
      counts down and restarts at a grant, a unit that attacks cools down, and a unit
      outside the arena is left with no health. */
  function Advance(c: Clock, engaged: bool): (r: Clock)
    ensures r.kind == c.kind && r.owner == c.owner
  {
    var m := MaxCooltime(c.kind);
    c.(health := if c.out then 0 else c.health,
       time := if c.kind.Flask? then FlaskStep(c.time).0 else c.time,
       cooltime := if m > 0 then CoolStep(c.cooltime, engaged, m).0 else c.cooltime)
  }

  /** Whether each unit of us is engaged, as `engaged` says. */
  function Engagements(us: seq<Unit>, engaged: Unit -> bool): (r: seq<bool>)
    ensures |r| == |us| && forall k | 0 <= k < |us| :: r[k] == engaged(us[k])
  {
    seq(|us|, k requires 0 <= k < |us| => engaged(us[k]))
  }

  /** Whether a unit's Frame, engaged as e says, dereferences an absent owner: a Flask
      due to grant energy, an Alarm, or a BigPencil or a Sharpener that fires, with no
      owner. */
  predicate Starves(c: Clock, e: bool) {
    c.owner == null && ReachesOwner(c.kind, c.time, c.cooltime, e)
  }

  /** The first unit from the k-th on whose Frame crashes, or the number of units. */
  function StarveFrom(cs: seq<Clock>, es: seq<bool>, k: nat): (r: nat)
    requires |es| == |cs| && k <= |cs|
    ensures k <= r <= |cs|
    ensures r < |cs| ==> Starves(cs[r], es[r])
    decreases |cs| - k
  {
    if k == |cs| then k else if Starves(cs[k], es[k]) then k else StarveFrom(cs, es, k + 1)
  }

  /** No unit before StarveFrom crashes the frames. */
  lemma {:induction false} StarveFromIsFirst(cs: seq<Clock>, es: seq<bool>, k: nat, m: nat)
    requires |es| == |cs| && k <= |cs| && k <= m < StarveFrom(cs, es, k)
    ensures !Starves(cs[m], es[m]) && StarveFrom(cs, es, m) == StarveFrom(cs, es, k)
    decreases m - k
  {
    if k < m {
      StarveFromIsFirst(cs, es, k + 1, m);
    }
  }

  /** The first j of the units us, whose clocks were cs, have run their Frame. */
  ghost predicate AdvancedTo(us: seq<Unit>, cs: seq<Clock>, engaged: Unit -> bool, j: nat)
    reads Members(us)
  {
    |cs| == |us| && j <= |us| && forall k | 0 <= k < j :: ClockOf(us[k]) == Advance(cs[k], engaged(us[k]))
  }

  /** The units from the j-th on still have the clocks cs. */
  ghost predicate ClocksFrom(us: seq<Unit>, cs: seq<Clock>, j: nat)
    reads Members(us)
  {
    |cs| == |us| && j <= |us| && forall k | j <= k < |us| :: ClockOf(us[k]) == cs[k]
  }

  // ---- energy regeneration ----

  /** Each player of qs, whose energy and timer were s[q], has regenerated once for
      each of its slots among ps. */
  ghost predicate RegenTo(qs: set<Player>, s: map<Player, (u16, u16)>, ps: seq<Player?>, speed: u16)
    reads qs
  {
    forall q | q in qs :: q in s && (q.energy, q.energyTime) == RegenN(s[q].0, s[q].1, q.maxEnergy, speed, Occ(ps, q))
  }

  // ---- the players a tick may change ----

  /** Every owner of a unit of us is one of ps. */
  ghost predicate OwnersWithin(us: seq<Unit>, ps: set<Player>)
    reads Members(us)`owner
  {
    forall k | 0 <= k < |us| :: us[k].owner == null || us[k].owner in ps
  }

  /** The owners of a list of units are those its snapshot names. */
  lemma OwnedWithin(us: seq<Unit>)
    ensures OwnersWithin(us, Owned(Snapshot(us)))
  {
    var vs := Snapshot(us);
    forall k | 0 <= k < |us| && us[k].owner != null
      ensures us[k].owner in Owned(vs)
    {
      assert vs[k].owner == us[k].owner;
    }
  }

  /** Units owned within ps have their clocks' and their snapshot's owners in ps. */
  lemma OwnersBound(us: seq<Unit>, ps: set<Player>)
    requires OwnersWithin(us, ps)
    ensures Owned(Snapshot(us)) <= ps && ClockOwners(Clocks(us)) <= ps
  {
  }

  /** Appending units owned within ps keeps a list owned within ps. */
  lemma OwnersExtend(u0: seq<Unit>, us: seq<Unit>, ps: set<Player>)
    requires u0 <= us && OwnersWithin(u0, ps)
    requires forall k | |u0| <= k < |us| :: us[k].owner == null || us[k].owner in ps
    ensures OwnersWithin(us, ps)
  {
  }

  // ---- the status packets ----

  /** The status packets of a tick, one per counted slot, in slot order. */
  function StatusSends(ps: seq<Player?>, frame: u64): (r: seq<(Player, seq<u8>)>)
    requires forall k | 0 <= k < |ps| :: ps[k] != null
    reads Roster(ps)
    ensures |r| == |ps|
    ensures forall k | 0 <= k < |ps| :: r[k].0 == ps[k] && |r[k].1| == 65
  {
    seq(|ps|, k requires 0 <= k < |ps| && ps[k] != null reads Roster(ps) =>
      (ps[k], StatusPacket(ps[k].id, ps[k].energy, ps[k].maxEnergy, frame, ps[k].order, ps[k].deck)))
  }

  // ---- the status packet ----

  /** The cards' 6-byte records, back to back. */
  function DeckBytes(deck: seq<Card>): (r: seq<u8>)
    ensures |r| == 6 * |deck|
  {
    if deck == [] then [] else DeckBytes(deck[..|deck| - 1]) + deck[|deck| - 1].Data()
  }

  /** A slice inside the left part of a concatenation. */
  lemma SliceLeft<T>(a: seq<T>, b: seq<T>, i: nat, j: nat)
    requires i <= j <= |a|
    ensures (a + b)[i..j] == a[i..j]
  {
  }

  /** A slice inside the right part of a concatenation. */
  lemma SlicePast<T>(a: seq<T>, b: seq<T>, i: nat, j: nat)
    requires i <= j <= |b|
    ensures (a + b)[|a| + i .. |a| + j] == b[i..j]
  {
  }

  /** The right part of a concatenation, as a slice. */
  lemma SliceRight<T>(a: seq<T>, b: seq<T>)
    ensures (a + b)[|a| .. |a| + |b|] == b
  {
  }

  /** The k-th card's record sits at bytes 6k to 6k + 6. */
  lemma {:induction false} DeckBytesAt(deck: seq<Card>, k: nat)
    requires k < |deck|
    ensures DeckBytes(deck)[6 * k .. 6 * k + 6] == deck[k].Data()
    decreases |deck|
  {
    var n := |deck| - 1;
    var front, last := DeckBytes(deck[..n]), deck[n].Data();
    if k < n {
      DeckBytesAt(deck[..n], k);
      assert deck[..n][k] == deck[k];
      assert 6 * k + 6 <= 6 * n == |front|;
      SliceLeft(front, last, 6 * k, 6 * k + 6);
    } else {
      assert |front| == 6 * k && |last| == 6;
      SliceRight(front, last);
    }
  }

  /** The status packet a counted player is sent on every tick of a match: opcode 3,
      the player's id, energy and maximum, the match clock in whole seconds (frame / 60,
      truncated to uint16), the play order, then the eight deck cards' records. */
  function StatusPacket(id: u16, energy: u16, maxEnergy: u16, frame: u64, order: seq<u8>, deck: seq<Card>): (r: seq<u8>)
    requires |order| == 8 && |deck| == 8
    ensures |r| == 65
  {
    [3] + BE16(id) + BE16(energy) + BE16(maxEnergy) + BE16(Wrap16(frame / 60)) + order + DeckBytes(deck)
  }

  /** Every field of the status packet reads back from its offset. */
  lemma StatusFields(id: u16, energy: u16, maxEnergy: u16, frame: u64, order: seq<u8>, deck: seq<Card>)
    requires |order| == 8 && |deck| == 8
    ensures var r := StatusPacket(id, energy, maxEnergy, frame, order, deck);
      r[0] == 3 && Read16(r[1..3]) == id && Read16(r[3..5]) == energy && Read16(r[5..7]) == maxEnergy
      && Read16(r[7..9]) == Wrap16(frame / 60) && r[9..17] == order
      && forall k | 0 <= k < 8 :: r[17 + 6 * k .. 23 + 6 * k] == deck[k].Data()
  {
    var a, b, c, d := BE16(id), BE16(energy), BE16(maxEnergy), BE16(Wrap16(frame / 60));
    var cards := DeckBytes(deck);
    var r := [3] + a + b + c + d + order + cards;
    assert r[1..3] == a && r[3..5] == b && r[5..7] == c && r[7..9] == d && r[9..17] == order;
    ReadBE16(id); ReadBE16(energy); ReadBE16(maxEnergy); ReadBE16(Wrap16(frame / 60));
    assert r[17..] == cards;
    forall k | 0 <= k < 8
      ensures r[17 + 6 * k .. 23 + 6 * k] == deck[k].Data()
    {
      DeckBytesAt(deck, k);
      assert r[17 + 6 * k .. 23 + 6 * k] == cards[6 * k .. 6 * k + 6];
    }
  }

  // ---- the board packet ----

  /** Byte records, back to back. */
  function Concat(rs: seq<seq<u8>>): seq<u8> {
    if rs == [] then [] else Concat(rs[..|rs| - 1]) + rs[|rs| - 1]
  }

  /** One more record at the end. */
  lemma ConcatSnoc(rs: seq<seq<u8>>, i: nat)
    requires i < |rs|
    ensures Concat(rs[..i + 1]) == Concat(rs[..i]) + rs[i]
  {
    assert rs[..i + 1][..i] == rs[..i];
  }

  /** The whole of a list of records is its longest prefix. */
  lemma ConcatAll(rs: seq<seq<u8>>)
    ensures Concat(rs[..|rs|]) == Concat(rs)
  {
    assert rs[..|rs|] == rs;
  }

  /** How many of the records are not empty. */
  function NonEmpty(rs: seq<seq<u8>>): nat {
    if rs == [] then 0 else NonEmpty(rs[..|rs| - 1]) + (if rs[|rs| - 1] == [] then 0 else 1)
  }

  /** w(n + 1) is wn + w. */
  lemma MulNext(w: nat, n: nat)
    ensures w * (n + 1) == w * n + w
  {
  }

  /** For k < n, the k-th w-wide record ends within wn. */
  lemma {:induction false} MulBelow(w: nat, k: nat, n: nat)
    requires k < n
    ensures w * k + w <= w * n
    decreases n
  {
    MulNext(w, n - 1);
    if k < n - 1 {
      MulBelow(w, k, n - 1);
    }
  }

  /** Records of w bytes or none take w bytes per non-empty record. */
  lemma {:induction false} ConcatLength(rs: seq<seq<u8>>, w: nat)
    requires forall i | 0 <= i < |rs| :: |rs[i]| == w || rs[i] == []
    ensures |Concat(rs)| == w * NonEmpty(rs)
    decreases |rs|
  {
    if rs != [] {
      var n := |rs| - 1;
      var front := rs[..n];
      assert forall i | 0 <= i < n :: front[i] == rs[i];
      ConcatLength(front, w);
      MulNext(w, NonEmpty(front));
    }
  }

  /** Records all w bytes long take w bytes each. */
  lemma {:induction false} ConcatUniform(rs: seq<seq<u8>>, w: nat)
    requires forall i | 0 <= i < |rs| :: |rs[i]| == w
    ensures |Concat(rs)| == w * |rs|
    decreases |rs|
  {
    if rs != [] {
      var n := |rs| - 1;
      var front := rs[..n];
      assert forall i | 0 <= i < n :: front[i] == rs[i];
      ConcatUniform(front, w);
      MulNext(w, n);
    }
  }

  /** Of records all w bytes long, the k-th sits at bytes wk to wk + w. */
  lemma ConcatAt(rs: seq<seq<u8>>, w: nat, k: nat)
    requires forall i | 0 <= i < |rs| :: |rs[i]| == w
    requires k < |rs|
    ensures w * k + w <= |Concat(rs)| && Concat(rs)[w * k .. w * k + w] == rs[k]
  {
    var front := rs[..k];
    assert forall i | 0 <= i < k :: front[i] == rs[i];
    ConcatUniform(front, w);
    ConcatUniform(rs, w);
    MulBelow(w, k, |rs|);
    ConcatAtOffset(rs, k);
  }

  /** Each record sits in the concatenation just after the records before it. */
  lemma {:induction false} ConcatAtOffset(rs: seq<seq<u8>>, k: nat)
    requires k < |rs|
    ensures var o := |Concat(rs[..k])|;
      o + |rs[k]| <= |Concat(rs)| && Concat(rs)[o .. o + |rs[k]|] == rs[k]
    decreases |rs|
  {
    var n := |rs| - 1;
    var front := rs[..n];
    var head := Concat(front);
    assert Concat(rs) == head + rs[n];
    if k < n {
      assert front[..k] == rs[..k];
      ConcatAtOffset(front, k);
      var o := |Concat(rs[..k])|;
      SliceLeft(head, rs[n], o, o + |rs[k]|);
    } else {
      SliceRight(head, rs[n]);
    }
  }

  /** Each unit's board record; `bits` is math.Float64bits. */
  function UnitDatas(us: seq<Unit>, bits: real -> u64): (r: seq<seq<u8>>)
    reads Members(us)
    ensures |r| == |us| && forall k | 0 <= k < |us| :: r[k] == us[k].Data(bits(us[k].x), bits(us[k].y))
  {
    seq(|us|, k requires 0 <= k < |us| reads Members(us) => us[k].Data(bits(us[k].x), bits(us[k].y)))
  }

  /** Each projectile's board record. */
  function ProjectileDatas(ps: seq<Projectile>, bits: real -> u64): (r: seq<seq<u8>>)
    reads Thrown(ps)
    ensures |r| == |ps| && forall k | 0 <= k < |ps| :: r[k] == ps[k].Data(bits(ps[k].x), bits(ps[k].y))
  {
    seq(|ps|, k requires 0 <= k < |ps| reads Thrown(ps) => ps[k].Data(bits(ps[k].x), bits(ps[k].y)))
  }

  /** The board packet: opcode 4, the visible units' records, then every projectile's. */
  function BoardPacket(us: seq<Unit>, ps: seq<Projectile>, bits: real -> u64): seq<u8>
    reads Members(us), Thrown(ps)
  {
    [4] + Concat(UnitDatas(us, bits)) + Concat(ProjectileDatas(ps, bits))
  }

  /** The board packet holds 34 bytes per visible unit and 29 per projectile, and the
      k-th projectile's record sits at its offset after the units. */
  lemma BoardLayout(us: seq<Unit>, ps: seq<Projectile>, bits: real -> u64, k: nat)
    requires k < |ps|
    ensures var r, u := BoardPacket(us, ps, bits), NonEmpty(UnitDatas(us, bits));
      |r| == 1 + 34 * u + 29 * |ps|
      && r[1 + 34 * u + 29 * k .. 1 + 34 * u + 29 * k + 29] == ps[k].Data(bits(ps[k].x), bits(ps[k].y))
  {
    RecordsLayout(UnitDatas(us, bits), ProjectileDatas(ps, bits), k);
  }

  /** The same layout over the records themselves. */
  lemma RecordsLayout(ud: seq<seq<u8>>, pd: seq<seq<u8>>, k: nat)
    requires forall i | 0 <= i < |ud| :: |ud[i]| == 34 || ud[i] == []
    requires forall i | 0 <= i < |pd| :: |pd[i]| == 29
    requires k < |pd|
    ensures var r, u := [4] + Concat(ud) + Concat(pd), NonEmpty(ud);
      |r| == 1 + 34 * u + 29 * |pd| && r[1 + 34 * u + 29 * k .. 1 + 34 * u + 29 * k + 29] == pd[k]
  {
    ConcatLength(ud, 34);
    ConcatUniform(pd, 29);
    ConcatAt(pd, 29, k);
    var head, tail := [4] + Concat(ud), Concat(pd);
    SlicePast(head, tail, 29 * k, 29 * k + 29);
  }

  /** A unit's record is empty exactly when the unit is invisible, so the units' part
      of the board counts the visible units. */
  lemma UnitRecordEmpty(us: seq<Unit>, bits: real -> u64, k: nat)
    requires k < |us|
    ensures UnitDatas(us, bits)[k] == [] <==> !us[k].isVisible
  {
  }
}
