/** The unit sweep of an active tick (object/games/game.go, the loop after the per-frame
    steps) as pure functions over what the sweep reads of each unit: dead units leave
    the list, living poisoned ones change hands to team 2, and the sweep notes whether
    every unit it saw was already on team 2. */
module Sweeps {
  import opened Bytes
  import opened Entities
  import opened Players
  import opened Units
  import opened Session

  /** What the sweep reads of a unit, as the unit stands when the sweep reaches it. */
  datatype Vitals = Vitals(owner: Player?, kind: UnitKind, team: u8, health: u32, poison: u32, id: u16)

  /** What the sweep reads of a unit now. */
  ghost function VitalsOf(u: Unit): Vitals
    reads u
  {
    Vitals(u.owner, u.kind, u.team, u.health, u.poison, u.id)
  }

  /** The units of a list, as a set. */
  function Members(us: seq<Unit>): set<Unit> {
    set u | u in us
  }

  /** What the sweep reads of each unit of a list now. */
  ghost function Snapshot(us: seq<Unit>): (r: seq<Vitals>)
    reads Members(us)
    ensures |r| == |us| && forall k | 0 <= k < |us| :: r[k] == VitalsOf(us[k])
  {
    seq(|us|, k requires 0 <= k < |us| reads Members(us) => VitalsOf(us[k]))
  }

  /** The owners the sweep may touch: the present owners of the units. */
  function Owned(vs: seq<Vitals>): set<Player> {
    set k | 0 <= k < |vs| && vs[k].owner != null :: vs[k].owner
  }

  /** What the sweep does with a unit. */
  datatype Fate =
    | Keep        // alive, and converted already or not poisoned to its health
    | Convert     // alive, not on team 2 and poisoned to its health: it changes hands
    | Remove      // dead: its Death runs and it leaves the list
    | EarthFalls  // a dead Earth: its Death runs and the match ends with team 1's win
    | Crash       // its Death or its conversion dereferences an absent player

  /** The branch the sweep takes at a unit; `slot2Absent` says whether the game's
      slot 2, the new owner of converted units, is empty. */
  function FateOf(v: Vitals, slot2Absent: bool): (f: Fate)
    ensures f == Remove || f == EarthFalls <==> v.health == 0 && v.owner != null
    ensures f == Convert ==> v.team != PoisonTeam && v.health <= v.poison
    ensures f == Keep <==> v.health != 0 && (v.team == PoisonTeam || v.health > v.poison)
    ensures f == EarthFalls ==> v.kind.Earth?
    ensures f == Convert ==> v.health != 0 && v.owner != null
  {
    if v.health == 0 then
      if v.owner == null then Crash else if v.kind.Earth? then EarthFalls else Remove
    else if v.team != PoisonTeam && v.health <= v.poison then
      if v.owner == null || ((v.kind.Note? || v.kind.Bag?) && slot2Absent) then Crash else Convert
    else Keep
  }

  /** Whether the sweep goes no further after a unit. */
  predicate Halts(f: Fate) {
    f == EarthFalls || f == Crash
  }

  /** The first unit from the k-th on at which the sweep halts, or the number of units. */
  function StopFrom(vs: seq<Vitals>, s2a: bool, k: nat): (r: nat)
    requires k <= |vs|
    ensures k <= r <= |vs|
    ensures r < |vs| ==> Halts(FateOf(vs[r], s2a))
    decreases |vs| - k
  {
    if k == |vs| then k else if Halts(FateOf(vs[k], s2a)) then k else StopFrom(vs, s2a, k + 1)
  }

  /** The sweep halts at no unit before StopFrom. */
  lemma {:induction false} StopFromIsFirst(vs: seq<Vitals>, s2a: bool, k: nat, m: nat)
    requires k <= |vs| && k <= m < StopFrom(vs, s2a, k)
    ensures !Halts(FateOf(vs[m], s2a))
    decreases |vs| - k
  {
    if k < m {
      StopFromIsFirst(vs, s2a, k + 1, m);
    }
  }

  /** Of the first j units, the ones the sweep keeps in the list, in their order. */
  function SurvivorsTo<T>(us: seq<T>, vs: seq<Vitals>, s2a: bool, j: nat): (r: seq<T>)
    requires j <= |us| && j <= |vs|
    ensures |r| <= j
  {
    if j == 0 then []
    else SurvivorsTo(us, vs, s2a, j - 1) + (if FateOf(vs[j - 1], s2a) == Remove then [] else [us[j - 1]])
  }

  /** The removal packets the sweep broadcasts for the first j units, in their order. */
  function RemovalsTo(vs: seq<Vitals>, s2a: bool, j: nat): (r: seq<seq<u8>>)
    requires j <= |vs|
    ensures |r| <= j
  {
    if j == 0 then []
    else RemovalsTo(vs, s2a, j - 1) + (if FateOf(vs[j - 1], s2a) == Remove then [RemovedPacket(vs[j - 1].id)] else [])
  }

  /** Whether the first j units were all on team 2 when the sweep reached them. */
  function AllPoisonedTo(vs: seq<Vitals>, j: nat): bool
    requires j <= |vs|
  {
    j == 0 || (AllPoisonedTo(vs, j - 1) && vs[j - 1].team == PoisonTeam)
  }

  /** The flag is the universal statement. */
  lemma {:induction false} AllPoisonedMeans(vs: seq<Vitals>, j: nat)
    requires j <= |vs|
    ensures AllPoisonedTo(vs, j) <==> forall k | 0 <= k < j :: vs[k].team == PoisonTeam
  {
    if j > 0 {
      AllPoisonedMeans(vs, j - 1);
    }
  }

  /** Every unit among the first j is either kept or announced as removed, never both. */
  lemma {:induction false} SweepAccounts<T>(us: seq<T>, vs: seq<Vitals>, s2a: bool, j: nat)
    requires j <= |us| && j <= |vs|
    ensures |SurvivorsTo(us, vs, s2a, j)| + |RemovalsTo(vs, s2a, j)| == j
  {
    if j > 0 {
      SweepAccounts(us, vs, s2a, j - 1);
    }
  }

  /** The kept units are exactly the ones whose fate is not removal. */
  lemma {:induction false} SurvivorsExactly<T>(us: seq<T>, vs: seq<Vitals>, s2a: bool, j: nat, x: T)
    requires j <= |us| && j <= |vs|
    ensures x in SurvivorsTo(us, vs, s2a, j) <==>
      exists k | 0 <= k < j :: us[k] == x && FateOf(vs[k], s2a) != Remove
  {
    if j > 0 {
      SurvivorsExactly(us, vs, s2a, j - 1, x);
      var k := j - 1;
      if us[k] == x && FateOf(vs[k], s2a) != Remove {
        assert x in SurvivorsTo(us, vs, s2a, j);
      }
    }
  }

  /** The kept units keep their order: kept units of a list without repeats, without
      repeats. */
  lemma {:induction false} SurvivorsDistinct<T>(us: seq<T>, vs: seq<Vitals>, s2a: bool, j: nat)
    requires j <= |us| && j <= |vs| && Distinct(us)
    ensures Distinct(SurvivorsTo(us, vs, s2a, j))
  {
    if j > 0 {
      SurvivorsDistinct(us, vs, s2a, j - 1);
      var p := SurvivorsTo(us, vs, s2a, j - 1);
      if FateOf(vs[j - 1], s2a) != Remove {
        SurvivorsExactly(us, vs, s2a, j - 1, us[j - 1]);
        DistinctAt(us, j - 1);
        DistinctAppend(p, us[j - 1]);
      } else {
        assert SurvivorsTo(us, vs, s2a, j) == p + [] == p;
      }
    }
  }

  /** Of the first j units, the ones changed to team 2. */
  function ConvertedTo<T>(us: seq<T>, vs: seq<Vitals>, s2a: bool, j: nat): (r: seq<T>)
    requires j <= |us| && j <= |vs|
  {
    if j == 0 then []
    else ConvertedTo(us, vs, s2a, j - 1) + (if FateOf(vs[j - 1], s2a) == Convert then [us[j - 1]] else [])
  }

  /** Converted units stay in the list. */
  lemma {:induction false} ConvertedSurvive<T>(us: seq<T>, vs: seq<Vitals>, s2a: bool, j: nat)
    requires j <= |us| && j <= |vs|
    ensures forall x | x in ConvertedTo(us, vs, s2a, j) :: x in SurvivorsTo(us, vs, s2a, j)
  {
    if j > 0 {
      ConvertedSurvive(us, vs, s2a, j - 1);
    }
  }

  // ---- the sweep loop, one unit at a time ----

  /** The list part way through the sweep, after its first j units: the kept ones, then
      the untouched rest. */
  ghost function SweepProgress<T>(us: seq<T>, vs: seq<Vitals>, s2a: bool, j: nat): seq<T>
    requires j <= |us| && j <= |vs|
  {
    SurvivorsTo(us, vs, s2a, j) + Rest(us, j)
  }

  /** Before the sweep, the list is all rest. */
  lemma SweepStarts<T>(us: seq<T>, vs: seq<Vitals>, s2a: bool)
    requires |us| == |vs|
    ensures SweepProgress(us, vs, s2a, 0) == us
  {
    RestIsSuffix(us, 0);
    assert SurvivorsTo(us, vs, s2a, 0) + us[0..] == us;
  }

  /** Midway, the unit the sweep looks at next sits just after the kept ones. */
  lemma SweepLooksAt<T>(us: seq<T>, vs: seq<Vitals>, s2a: bool, j: nat)
    requires j < |us| && j < |vs|
    ensures var t, i := SweepProgress(us, vs, s2a, j), |SurvivorsTo(us, vs, s2a, j)|;
      i < |t| && t[i] == us[j]
  {
  }

  /** The sweep at a dead unit that is not a fallen Earth: splicing it out of the list
      moves the sweep on by one unit and announces its removal. */
  lemma SweepRemoveStep<T>(us: seq<T>, vs: seq<Vitals>, s2a: bool, j: nat)
    requires j < |us| && j < |vs| && FateOf(vs[j], s2a) == Remove
    ensures var t, i := SweepProgress(us, vs, s2a, j), |SurvivorsTo(us, vs, s2a, j)|;
      i < |t| && t[..i] + t[i + 1..] == SweepProgress(us, vs, s2a, j + 1)
    ensures |SurvivorsTo(us, vs, s2a, j + 1)| == |SurvivorsTo(us, vs, s2a, j)|
    ensures RemovalsTo(vs, s2a, j + 1) == RemovalsTo(vs, s2a, j) + [RemovedPacket(vs[j].id)]
    ensures StopFrom(vs, s2a, j + 1) == StopFrom(vs, s2a, j)
  {
    var k, r := SurvivorsTo(us, vs, s2a, j), Rest(us, j + 1);
    assert SurvivorsTo(us, vs, s2a, j + 1) == k + [];
    assert Rest(us, j) == [us[j]] + r;
    SpliceMiddle(k, us[j], r);
  }

  /** The sweep at a living unit: the list stays as it is and the sweep moves on by one
      unit. */
  lemma SweepKeepStep<T>(us: seq<T>, vs: seq<Vitals>, s2a: bool, j: nat)
    requires j < |us| && j < |vs|
    requires FateOf(vs[j], s2a) == Keep || FateOf(vs[j], s2a) == Convert
    ensures SweepProgress(us, vs, s2a, j + 1) == SweepProgress(us, vs, s2a, j)
    ensures |SurvivorsTo(us, vs, s2a, j + 1)| == |SurvivorsTo(us, vs, s2a, j)| + 1
    ensures RemovalsTo(vs, s2a, j + 1) == RemovalsTo(vs, s2a, j)
    ensures StopFrom(vs, s2a, j + 1) == StopFrom(vs, s2a, j)
  {
    var k, r := SurvivorsTo(us, vs, s2a, j), Rest(us, j + 1);
    assert SurvivorsTo(us, vs, s2a, j + 1) == k + [us[j]];
    assert Rest(us, j) == [us[j]] + r;
    assert RemovalsTo(vs, s2a, j) + [] == RemovalsTo(vs, s2a, j);
  }

  /** The board after the unit sweep over the units u0, whose vitals were vs, from the
      broadcasts b0, projectiles p0 and status st0: the sweep stops at the first unit
      whose Death or conversion crashes, or at the first dead Earth, which ends the
      match with team 1's win; short of that every dead unit leaves the list and its
      removal is broadcast, in order, and the projectiles and the status stay as they
      were. `allPoisoned` says whether every unit the sweep saw was on team 2. What the
      sweep does to the units themselves is SweptUnits. */
  predicate SweepDone<P(==)>(units: seq<Unit>, projectiles: seq<P>, status: u8, broadcasts: seq<seq<u8>>,
                         u0: seq<Unit>, vs: seq<Vitals>, s2a: bool, b0: seq<seq<u8>>, p0: seq<P>, st0: u8,
                         allPoisoned: bool, crashed: bool)
  {
    |vs| == |u0| &&
    var n := StopFrom(vs, s2a, 0);
    (crashed <==> n < |vs| && FateOf(vs[n], s2a) == Crash)
    && (!crashed ==> allPoisoned == AllPoisonedTo(vs, if n < |vs| then n + 1 else n))
    && (n == |vs| ==>
          units == SurvivorsTo(u0, vs, s2a, n) && broadcasts == b0 + RemovalsTo(vs, s2a, n)
          && projectiles == p0 && status == st0)
    && (n < |vs| && !crashed ==>
          units == [] && projectiles == [] && status == Room
          && broadcasts == b0 + RemovalsTo(vs, s2a, n) + [RemovedPacket(vs[n].id), EndPacket(1)])
  }

  // ---- what the sweep does to the units themselves ----

  /** A unit's vitals once the sweep has passed it: a converted unit belongs to `slot2`,
      is on team 2 and is poisoned to its health; any other reads as it did. */
  function SweptVitals(v: Vitals, slot2: Player?): Vitals {
    if FateOf(v, slot2 == null) == Convert then v.(owner := slot2, team := PoisonTeam, poison := v.health) else v
  }

  /** The units of u0, whose vitals were vs when the sweep started, once the sweep has
      passed the first j of them with `slot2` as the new owner: the passed units read
      as SweptVitals says and the rest as they did. */
  ghost predicate Settled(u0: seq<Unit>, vs: seq<Vitals>, slot2: Player?, j: nat)
    reads Members(u0)
  {
    |vs| == |u0| && j <= |u0|
    && forall k | 0 <= k < |u0| :: VitalsOf(u0[k]) == if k < j then SweptVitals(vs[k], slot2) else vs[k]
  }

  /** Passing a unit that is not converted leaves it as it was. */
  lemma SettledPasses(u0: seq<Unit>, vs: seq<Vitals>, slot2: Player?, j: nat)
    requires Settled(u0, vs, slot2, j) && j < |u0| && FateOf(vs[j], slot2 == null) != Convert
    ensures Settled(u0, vs, slot2, j + 1)
  {
    assert SweptVitals(vs[j], slot2) == vs[j];
  }

  /** The units after a whole sweep: the ones before the unit where it halts (all of
      them if it does not halt) are settled, and the rest read as they did. */
  ghost predicate SweptUnits(u0: seq<Unit>, vs: seq<Vitals>, slot2: Player?)
    reads Members(u0)
  {
    |vs| == |u0| && Settled(u0, vs, slot2, StopFrom(vs, slot2 == null, 0))
  }

  /** A sweep that runs to the end leaves no unit in the list that is dead or due to
      change hands: every kept unit is alive, and on team 2 or poisoned below its
      health. */
  lemma SweepLeavesNoneDue(u0: seq<Unit>, vs: seq<Vitals>, slot2: Player?)
    requires |vs| == |u0| && StopFrom(vs, slot2 == null, 0) == |u0| && SweptUnits(u0, vs, slot2)
    ensures forall u | u in SurvivorsTo(u0, vs, slot2 == null, |u0|) ::
      u.health != 0 && (u.team == PoisonTeam || u.health > u.poison)
  {
    forall u | u in SurvivorsTo(u0, vs, slot2 == null, |u0|)
      ensures u.health != 0 && (u.team == PoisonTeam || u.health > u.poison)
    {
      SurvivorsExactly(u0, vs, slot2 == null, |u0|, u);
      var k :| 0 <= k < |u0| && u0[k] == u && FateOf(vs[k], slot2 == null) != Remove;
      StopFromIsFirst(vs, slot2 == null, 0, k);
      assert VitalsOf(u) == SweptVitals(vs[k], slot2);
    }
  }

  /** A unit the sweep converts ends up owned by slot 2, on team 2 and poisoned to its
      health, and stays in the list. */
  lemma SweepConverts(u0: seq<Unit>, vs: seq<Vitals>, slot2: Player?, k: nat)
    requires SweptUnits(u0, vs, slot2) && k < StopFrom(vs, slot2 == null, 0) && FateOf(vs[k], slot2 == null) == Convert
    ensures u0[k].owner == slot2 && u0[k].team == PoisonTeam && u0[k].poison == u0[k].health == vs[k].health
    ensures u0[k] in SurvivorsTo(u0, vs, slot2 == null, StopFrom(vs, slot2 == null, 0))
  {
    var n := StopFrom(vs, slot2 == null, 0);
    assert VitalsOf(u0[k]) == SweptVitals(vs[k], slot2);
    SurvivorsExactly(u0, vs, slot2 == null, n, u0[k]);
  }
}
