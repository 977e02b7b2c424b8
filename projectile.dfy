/** Throwers, the projectiles the cards place (object/games/projectile.go), and the
    projectile sweep of an active tick as pure functions over what the sweep reads of
    each projectile. */
module Projectiles {
  import opened Bytes
  import opened Entities
  import opened Players
  import opened Units
  import opened Session

  /** Height a thrower loses per frame. */
  const FallStep: real := 0.1

  /** A thrower: a projectile that drops from its spawn height and is used up when it
      reaches the ground. Its area effect acts through the spatial index and is not
      modelled. */
  class Projectile {
    const typeid: u16
    const height: real
    const magic: Magic
    var owner: Player?
    var id: u16
    var team: u8
    var using: bool
    var x: real
    var y: real

    /** NewThrower */
    constructor (h: real, t: u16, m: Magic)
      ensures typeid == t && height == h && magic == m
      ensures owner == null && id == 0 && team == 0 && !using && x == 0.0 && y == 0.0
    {
      typeid, height, magic := t, h, m;
      owner, id, team, using := null, 0, 0, false;
      x, y := 0.0, 0.0;
    }

    /** Thrower.Run: bound to its owner, id and team, not yet used, at its height. */
    method Run(p: Player, newId: u16)
      modifies this`owner, this`id, this`team, this`using, this`y
      ensures owner == p && id == newId && team == p.team && !using && y == height
    {
      owner, id, team, using := p, newId, p.team, false;
      y := height;
    }

    /** Thrower.Frame: one step of the fall. */
    method Frame()
      modifies this`y, this`using
      ensures (y, using) == Fall(old(y), old(using))
    {
      y := y - FallStep;
      if y <= 0.0 {
        using := true;
      }
    }

    /** Projectile.Death: the removal packet to broadcast; `crashed` where the source
        dereferences an absent owner. */
    method Death() returns (packet: seq<u8>, crashed: bool)
      ensures packet == RemovedPacket(id) && crashed == (owner == null)
    {
      packet, crashed := RemovedPacket(id), owner == null;
    }

    /** Data: the 29-byte board record: id, typeid, team + 3 in uint8, and the float64
        bit patterns of X, Y (given, since IEEE encoding is not modelled) and of the
        angle, which a thrower never sets, so its pattern is that of +0.0, all zero.
        What each field reads back as is ProjectileDataFields. */
    function Data(xBits: u64, yBits: u64): (r: seq<u8>)
      reads this
      ensures |r| == 29
    {
      BE16(id) + BE16(typeid) + [Wrap8(team + 3)] + BE64(xBits) + BE64(yBits) + BE64(0)
    }
  }

  /** Every field of a projectile's record reads back from its offset. */
  lemma ProjectileDataFields(p: Projectile, xBits: u64, yBits: u64)
    ensures var r := p.Data(xBits, yBits);
      |r| == 29 && Read16(r[..2]) == p.id && Read16(r[2..4]) == p.typeid && r[4] == Wrap8(p.team + 3)
      && Read64(r[5..13]) == xBits && Read64(r[13..21]) == yBits && Read64(r[21..29]) == 0
  {
    var a, b, c := BE16(p.id), BE16(p.typeid), [Wrap8(p.team + 3)];
    var d, e, f := BE64(xBits), BE64(yBits), BE64(0);
    var r := a + b + c + d + e + f;
    assert r == p.Data(xBits, yBits);
    assert r[..2] == a && r[2..4] == b && r[5..13] == d && r[13..21] == e && r[21..29] == f;
    ReadBE16(p.id); ReadBE16(p.typeid);
    ReadBE64(xBits); ReadBE64(yBits); ReadBE64(0);
  }

  /** One frame of a thrower's fall: down by FallStep, used once at or below the ground. */
  function Fall(y: real, used: bool): (r: (real, bool))
    ensures r.0 < y
    ensures used ==> r.1
  {
    (y - FallStep, used || y - FallStep <= 0.0)
  }

  /** n frames of the fall. */
  function FallN(y: real, used: bool, n: nat): (real, bool) {
    if n == 0 then (y, used)
    else
      var prev := FallN(y, used, n - 1);
      Fall(prev.0, prev.1)
  }

  /** A thrower placed at height h is, n frames later, n steps lower, and it is used
      from the first frame that brings it to the ground on. */
  lemma {:induction false} FallLands(h: real, n: nat)
    ensures FallN(h, false, n) == (h - n as real * FallStep, n > 0 && h - n as real * FallStep <= 0.0)
    decreases n
  {
    if n > 0 {
      FallLands(h, n - 1);
    }
  }

  /** The projectiles of a list, as a set. */
  function Thrown(ps: seq<Projectile>): set<Projectile> {
    set p | p in ps
  }

  /** The height and used flag of each projectile of a list now. */
  ghost function Heights(ps: seq<Projectile>): (r: seq<(real, bool)>)
    reads Thrown(ps)
    ensures |r| == |ps| && forall k | 0 <= k < |ps| :: r[k] == (ps[k].y, ps[k].using)
  {
    seq(|ps|, k requires 0 <= k < |ps| reads Thrown(ps) => (ps[k].y, ps[k].using))
  }

  /** The projectiles ps, whose heights and flags were hs, after the first j have run
      their Frame. */
  ghost predicate FallenTo(ps: seq<Projectile>, hs: seq<(real, bool)>, j: nat)
    reads Thrown(ps)
  {
    |hs| == |ps| && j <= |ps|
    && (forall k | 0 <= k < j :: (ps[k].y, ps[k].using) == Fall(hs[k].0, hs[k].1))
    && (forall k | j <= k < |ps| :: (ps[k].y, ps[k].using) == hs[k])
  }

  // ---- the projectile sweep ----

  /** What the projectile sweep reads of a projectile. */
  datatype Shot = Shot(used: bool, ownerless: bool, id: u16)

  ghost function ShotOf(p: Projectile): Shot
    reads p
  {
    Shot(p.using, p.owner == null, p.id)
  }

  /** What the sweep reads of each projectile of a list now. */
  ghost function Shots(ps: seq<Projectile>): (r: seq<Shot>)
    reads Thrown(ps)
    ensures |r| == |ps| && forall k | 0 <= k < |ps| :: r[k] == ShotOf(ps[k])
  {
    seq(|ps|, k requires 0 <= k < |ps| reads Thrown(ps) => ShotOf(ps[k]))
  }

  /** Whether the sweep's Death of a projectile dereferences an absent owner. */
  predicate Fatal(s: Shot) {
    s.used && s.ownerless
  }

  /** The first projectile from the k-th on whose Death crashes, or the number of
      projectiles. */
  function CrashFrom(ss: seq<Shot>, k: nat): (r: nat)
    requires k <= |ss|
    ensures k <= r <= |ss|
    ensures r < |ss| ==> Fatal(ss[r])
    decreases |ss| - k
  {
    if k == |ss| then k else if Fatal(ss[k]) then k else CrashFrom(ss, k + 1)
  }

  /** No projectile before CrashFrom crashes the sweep. */
  lemma {:induction false} CrashFromIsFirst(ss: seq<Shot>, k: nat, m: nat)
    requires k <= |ss| && k <= m < CrashFrom(ss, k)
    ensures !Fatal(ss[m])
    decreases |ss| - k
  {
    if k < m {
      CrashFromIsFirst(ss, k + 1, m);
    }
  }

  /** Of the first j projectiles, the unused ones, which stay in the list, in order. */
  function LeftTo<T>(ps: seq<T>, ss: seq<Shot>, j: nat): (r: seq<T>)
    requires j <= |ps| && j <= |ss|
    ensures |r| <= j
  {
    if j == 0 then []
    else LeftTo(ps, ss, j - 1) + (if ss[j - 1].used then [] else [ps[j - 1]])
  }

  /** The removal packets for the used ones among the first j projectiles, in order. */
  function SpentTo(ss: seq<Shot>, j: nat): (r: seq<seq<u8>>)
    requires j <= |ss|
    ensures |r| <= j
  {
    if j == 0 then []
    else SpentTo(ss, j - 1) + (if ss[j - 1].used then [RemovedPacket(ss[j - 1].id)] else [])
  }

  /** The projectiles left are exactly the unused ones. */
  lemma {:induction false} LeftExactly<T>(ps: seq<T>, ss: seq<Shot>, j: nat, x: T)
    requires j <= |ps| && j <= |ss|
    ensures x in LeftTo(ps, ss, j) <==> exists k | 0 <= k < j :: ps[k] == x && !ss[k].used
  {
    if j > 0 {
      LeftExactly(ps, ss, j - 1, x);
      var k := j - 1;
      if ps[k] == x && !ss[k].used {
        assert x in LeftTo(ps, ss, j);
      }
    }
  }

  /** Every projectile among the first j either stays or is announced as removed. */
  lemma {:induction false} ShotsAccount<T>(ps: seq<T>, ss: seq<Shot>, j: nat)
    requires j <= |ps| && j <= |ss|
    ensures |LeftTo(ps, ss, j)| + |SpentTo(ss, j)| == j
  {
    if j > 0 {
      ShotsAccount(ps, ss, j - 1);
    }
  }

  /** The list part way through the sweep, after its first j projectiles. */
  ghost function ShotProgress<T>(ps: seq<T>, ss: seq<Shot>, j: nat): seq<T>
    requires j <= |ps| && j <= |ss|
  {
    LeftTo(ps, ss, j) + Rest(ps, j)
  }

  /** Before the sweep, the list is all rest; midway, the projectile the sweep looks at
      next sits just after the ones left. */
  lemma ShotStarts<T>(ps: seq<T>, ss: seq<Shot>)
    requires |ps| == |ss|
    ensures ShotProgress(ps, ss, 0) == ps
  {
    RestIsSuffix(ps, 0);
    assert LeftTo(ps, ss, 0) + ps[0..] == ps;
  }

  lemma ShotLooksAt<T>(ps: seq<T>, ss: seq<Shot>, j: nat)
    requires j < |ps| && j < |ss|
    ensures var t, i := ShotProgress(ps, ss, j), |LeftTo(ps, ss, j)|;
      i < |t| && t[i] == ps[j]
  {
  }

  /** The sweep at a used projectile: splicing it out moves the sweep on by one and
      announces its removal. */
  lemma ShotRemoveStep<T>(ps: seq<T>, ss: seq<Shot>, j: nat)
    requires j < |ps| && j < |ss| && ss[j].used && !Fatal(ss[j])
    ensures var t, i := ShotProgress(ps, ss, j), |LeftTo(ps, ss, j)|;
      i < |t| && t[..i] + t[i + 1..] == ShotProgress(ps, ss, j + 1)
    ensures |LeftTo(ps, ss, j + 1)| == |LeftTo(ps, ss, j)|
    ensures SpentTo(ss, j + 1) == SpentTo(ss, j) + [RemovedPacket(ss[j].id)]
    ensures CrashFrom(ss, j + 1) == CrashFrom(ss, j)
  {
    var k, r := LeftTo(ps, ss, j), Rest(ps, j + 1);
    assert LeftTo(ps, ss, j + 1) == k + [];
    assert Rest(ps, j) == [ps[j]] + r;
    SpliceMiddle(k, ps[j], r);
  }

  /** The sweep at an unused projectile: the list stays and the sweep moves on. */
  lemma ShotKeepStep<T>(ps: seq<T>, ss: seq<Shot>, j: nat)
    requires j < |ps| && j < |ss| && !ss[j].used
    ensures ShotProgress(ps, ss, j + 1) == ShotProgress(ps, ss, j)
    ensures |LeftTo(ps, ss, j + 1)| == |LeftTo(ps, ss, j)| + 1
    ensures SpentTo(ss, j + 1) == SpentTo(ss, j)
    ensures CrashFrom(ss, j + 1) == CrashFrom(ss, j)
  {
    var k, r := LeftTo(ps, ss, j), Rest(ps, j + 1);
    assert LeftTo(ps, ss, j + 1) == k + [ps[j]];
    assert Rest(ps, j) == [ps[j]] + r;
    assert SpentTo(ss, j) + [] == SpentTo(ss, j);
  }

  /** After the last projectile, the list is what is left. */
  lemma ShotsEnd<T>(ps: seq<T>, ss: seq<Shot>)
    requires |ps| == |ss|
    ensures ShotProgress(ps, ss, |ps|) == LeftTo(ps, ss, |ps|)
  {
    assert LeftTo(ps, ss, |ps|) + [] == LeftTo(ps, ss, |ps|);
  }
}
