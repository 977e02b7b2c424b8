/** The bookkeeping of a match as pure functions: the player-slot scans of Join and
    Left, the spawn queue's countdown, energy regeneration and the end-of-tick verdict
    (object/games/game.go). The Game class proves its loops against these. */
module Session {
  import opened Bytes
  import opened Entities
  import opened Cards
  import opened Players

  /** Number of player slots of a game. */
  const Slots: int := 3

  /** A queued placement: who placed it, where, the frames still to wait, and what
      it builds. */
  datatype Spawn = Spawn(owner: Player, x: real, y: real, time: u8, obj: Recipe)

  // ---- Join ----

  /** The first empty slot, or |s| when there is none. */
  function FirstNull(s: seq<Player?>): (r: nat)
    ensures r <= |s|
    ensures r < |s| ==> s[r] == null
    ensures forall i | 0 <= i < r :: s[i] != null
  {
    if s == [] then 0 else if s[0] == null then 0 else 1 + FirstNull(s[1..])
  }

  /** The slots after Join: the new player takes the first empty slot, if any. */
  function Seated(s: seq<Player?>, p: Player): (r: seq<Player?>)
    ensures |r| == |s|
  {
    if FirstNull(s) < |s| then s[FirstNull(s) := p] else s
  }

  /** Joining keeps the counted slots filled: if slots [0, n) are occupied and
      n < 3, then slots [0, n + 1) are occupied afterwards. */
  lemma JoinKeepsPrefix(s: seq<Player?>, p: Player, n: nat)
    requires |s| == Slots && n < Slots
    requires forall i | 0 <= i < n :: s[i] != null
    ensures forall i | 0 <= i < n + 1 :: Seated(s, p)[i] != null
    ensures forall i | 0 <= i < n :: Seated(s, p)[i] == s[i]
  {
  }

  // ---- Left ----

  /** Iteration i of Left's scan: fill an empty left neighbour from slot i, then clear
      slot i if it holds the leaving player. */
  function LeftStep(t: seq<Player?>, p: Player, i: nat): (r: seq<Player?>)
    requires i < |t|
    ensures |r| == |t|
    ensures forall j | 0 <= j < |r| :: r[j] == null || r[j] in t
  {
    var t1 := if i > 0 && t[i - 1] == null then t[i - 1 := t[i]] else t;
    if t1[i] == p then t1[i := null] else t1
  }

  /** The slots after the first k iterations of Left's scan. */
  function LeftScan(s: seq<Player?>, p: Player, k: nat): (r: seq<Player?>)
    requires k <= |s|
    ensures |r| == |s|
    ensures forall j | 0 <= j < |r| :: r[j] == null || r[j] in s
  {
    if k == 0 then s else LeftStep(LeftScan(s, p, k - 1), p, k - 1)
  }

  /** Left keeps the counted slots filled: if slots [0, n) were occupied, slots
      [0, n - 1) are occupied after the scan, whoever leaves and however often they
      occupied a slot. */
  lemma {:induction false} LeftKeepsPrefix(s: seq<Player?>, p: Player, n: nat, k: nat)
    requires n <= |s| && k <= n
    requires forall i | 0 <= i < n :: s[i] != null
    ensures forall i | 0 <= i && i + 1 < k :: LeftScan(s, p, k)[i] != null
    ensures forall i | k <= i < |s| :: LeftScan(s, p, k)[i] == s[i]
    decreases k
  {
    if k > 0 {
      LeftKeepsPrefix(s, p, n, k - 1);
    }
  }

  /** What Left does to a player seated once: the slot of the leaving player is taken
      by its right neighbour, which stays in its own slot as well; a player in the
      last counted slot is simply cleared. */
  lemma {:induction false} LeftExact(s: seq<Player?>, p: Player, n: nat, k: nat, j: nat)
    requires n <= |s| && k < n && j <= n
    requires forall i | 0 <= i < n :: s[i] != null
    requires s[k] == p && forall i | 0 <= i < n && i != k :: s[i] != p
    ensures LeftScan(s, p, j) ==
      if j <= k then s
      else if j == k + 1 || k + 1 == n then s[k := null]
      else s[k := s[k + 1]]
    decreases j
  {
    if j > 0 {
      LeftExact(s, p, n, k, j - 1);
    }
  }

  /** Left removes exactly the leaving player from the counted slots only when that
      player sat in one of the last two of them (or the last two counted players are
      the same): otherwise the player after the gap is counted twice and the last
      counted player drops out. */
  lemma LeftRemovesOnlyNearTheEnd(s: seq<Player?>, p: Player, n: nat, k: nat)
    requires |s| == Slots && n <= |s| && k < n
    requires forall i | 0 <= i < n :: s[i] != null
    requires s[k] == p && forall i | 0 <= i < n && i != k :: s[i] != p
    ensures LeftScan(s, p, n)[..n - 1] == s[..k] + s[k + 1..n]
            <==> k + 2 >= n || s[k + 1] == s[n - 1]
  {
    LeftExact(s, p, n, k, n);
    var r := LeftScan(s, p, n);
    var want := s[..k] + s[k + 1..n];
    if k + 2 < n {
      assert k == 0 && n == 3;
      assert r[..n - 1] == [s[1], s[1]] && want == [s[1], s[2]];
    } else if k + 1 == n {
      assert r[..n - 1] == s[..k];
    } else {
      assert r[..n - 1] == s[..k] + [s[k + 1]];
    }
  }

  /** The quirk in its smallest form: the first of three players leaves, the second is
      then counted twice and the third is no longer counted. */
  lemma LeftQuirk(a: Player, b: Player, c: Player)
    requires a != b && a != c && b != c
    ensures LeftScan([a, b, c], a, 3) == [b, b, c]
  {
    LeftExact([a, b, c], a, 3, 0, 3);
  }

  // ---- multiplicities ----

  /** How often q is seated among the first slots s. */
  function Occ(s: seq<Player?>, q: Player): nat {
    if s == [] then 0 else Occ(s[..|s| - 1], q) + (if s[|s| - 1] == q then 1 else 0)
  }

  lemma {:induction false} OccPositive(s: seq<Player?>, q: Player, i: nat)
    requires i < |s| && s[i] == q
    ensures Occ(s, q) >= 1
    decreases |s|
  {
    if i < |s| - 1 {
      assert s[..|s| - 1][i] == q;
      OccPositive(s[..|s| - 1], q, i);
    }
  }

  // ---- the spawn queue ----

  /** Of the first j entries of a queue, the ones a drain keeps, each one frame closer,
      in their order. */
  function KeptTo(s: seq<Spawn>, j: nat): (r: seq<Spawn>)
    requires j <= |s|
    ensures |r| <= j
  {
    if j == 0 then []
    else
      var e := s[j - 1];
      KeptTo(s, j - 1) + (if e.time > 0 then [e.(time := e.time - 1)] else [])
  }

  /** Of the first j entries of a queue, the ones a drain places, in their order. */
  function DueTo(s: seq<Spawn>, j: nat): (r: seq<Spawn>)
    requires j <= |s|
    ensures |r| <= j
  {
    if j == 0 then []
    else
      var e := s[j - 1];
      DueTo(s, j - 1) + (if e.time == 0 then [e] else [])
  }

  /** The queue a drain leaves behind. */
  function Kept(s: seq<Spawn>): seq<Spawn> {
    KeptTo(s, |s|)
  }

  /** The entries a drain places, in their order. */
  function Due(s: seq<Spawn>): seq<Spawn> {
    DueTo(s, |s|)
  }

  /** The elements of a sequence from the j-th on, in their order. */
  function Rest<T>(s: seq<T>, j: nat): seq<T>
    requires j <= |s|
    decreases |s| - j
  {
    if j == |s| then [] else [s[j]] + Rest(s, j + 1)
  }

  /** No element occurs twice. */
  predicate Distinct<T(==)>(s: seq<T>) {
    forall a, b | 0 <= a < b < |s| :: s[a] != s[b]
  }

  /** An element new to a sequence without repeats may be appended to it. */
  lemma DistinctAppend<T>(s: seq<T>, x: T)
    requires Distinct(s) && x !in s
    ensures Distinct(s + [x])
  {
    var t := s + [x];
    forall a, b | 0 <= a < b < |t|
      ensures t[a] != t[b]
    {
      assert t[a] == s[a];
    }
  }

  /** In a sequence without repeats, the element at one position is at no other. */
  lemma DistinctAt<T>(s: seq<T>, j: nat)
    requires Distinct(s) && j < |s|
    ensures forall k | 0 <= k < |s| && k != j :: s[k] != s[j]
  {
  }

  /** Splicing one element out of a sequence without repeats leaves none. */
  lemma DistinctSplice<T>(s: seq<T>, i: nat)
    requires Distinct(s) && i < |s|
    ensures Distinct(s[..i] + s[i + 1..])
  {
    var t := s[..i] + s[i + 1..];
    forall a, b | 0 <= a < b < |t|
      ensures t[a] != t[b]
    {
      assert t[a] == s[if a < i then a else a + 1];
      assert t[b] == s[if b < i then b else b + 1];
    }
  }

  /** The owners of the entries of a queue. */
  function Owners(s: seq<Spawn>): set<Player> {
    set e | e in s :: e.owner
  }

  /** The rest of a sequence is its suffix. */
  lemma {:induction false} RestIsSuffix<T>(s: seq<T>, j: nat)
    requires j <= |s|
    ensures Rest(s, j) == s[j..]
    decreases |s| - j
  {
    if j < |s| {
      RestIsSuffix(s, j + 1);
      assert s[j..] == [s[j]] + s[j + 1..];
    }
  }

  /** The queue part way through a drain, after its first j entries: the kept ones,
      then the untouched rest. */
  ghost function Progress(s: seq<Spawn>, j: nat): seq<Spawn>
    requires j <= |s|
  {
    KeptTo(s, j) + Rest(s, j)
  }

  /** Before a drain, the queue is all rest; after it, all kept. */
  lemma ProgressEnds(s: seq<Spawn>)
    ensures Progress(s, 0) == s && Progress(s, |s|) == Kept(s)
  {
    RestIsSuffix(s, 0);
    assert KeptTo(s, 0) + s[0..] == s;
  }

  /** Midway, the next entry the drain looks at sits just after the kept prefix. */
  lemma ProgressAt(s: seq<Spawn>, j: nat)
    requires j < |s|
    ensures |KeptTo(s, j)| < |Progress(s, j)| && Progress(s, j)[|KeptTo(s, j)|] == s[j]
  {
  }

  /** The drain loop, at an entry still waiting: counting it down in place, at the end
      of the kept prefix, moves the drain on by one entry. */
  lemma DrainWaitStep(s: seq<Spawn>, j: nat)
    requires j < |s| && s[j].time > 0
    ensures |KeptTo(s, j)| < |Progress(s, j)| && Progress(s, j)[|KeptTo(s, j)|] == s[j]
    ensures Progress(s, j)[|KeptTo(s, j)| := s[j].(time := s[j].time - 1)] == Progress(s, j + 1)
    ensures |KeptTo(s, j + 1)| == |KeptTo(s, j)| + 1 && DueTo(s, j + 1) == DueTo(s, j)
  {
    var k, e, r := KeptTo(s, j), s[j].(time := s[j].time - 1), Rest(s, j + 1);
    assert KeptTo(s, j + 1) == k + [e];
    assert Rest(s, j) == [s[j]] + r;
    assert Progress(s, j) == k + [s[j]] + r;
    assert Progress(s, j + 1) == k + [e] + r;
    var t := (k + [s[j]] + r)[|k| := e];
    assert forall m | 0 <= m < |t| :: t[m] == (k + [e] + r)[m];
  }

  /** Taking out the element after a prefix leaves the prefix and what followed. */
  lemma SpliceMiddle<T>(k: seq<T>, x: T, r: seq<T>)
    ensures var t := k + ([x] + r); t[..|k|] + t[|k| + 1..] == k + r
  {
    var t := k + ([x] + r);
    assert t[..|k|] == k;
    assert t[|k| + 1..] == r;
  }

  /** The drain loop, at a due entry: splicing it out of the queue moves the drain on
      by one entry and adds it to the placed ones. */
  lemma DrainPlaceStep(s: seq<Spawn>, j: nat)
    requires j < |s| && s[j].time == 0
    ensures var t, i := Progress(s, j), |KeptTo(s, j)|; i < |t| && t[..i] + t[i + 1..] == Progress(s, j + 1)
    ensures |KeptTo(s, j + 1)| == |KeptTo(s, j)| && DueTo(s, j + 1) == DueTo(s, j) + [s[j]]
  {
    var k, r := KeptTo(s, j), Rest(s, j + 1);
    assert KeptTo(s, j + 1) == k + [];
    assert Rest(s, j) == [s[j]] + r;
    SpliceMiddle(k, s[j], r);
  }

  /** An entry still waiting adds no unit, no thrower and no notice. */
  lemma WaitStep(s: seq<Spawn>, j: nat, base: u16, bits: real -> u64)
    requires j < |s| && s[j].time > 0
    ensures UnitsTo(s, j + 1, base) == UnitsTo(s, j, base)
    ensures ThrowersTo(s, j + 1, base) == ThrowersTo(s, j, base)
    ensures NoticesTo(s, j + 1, bits) == NoticesTo(s, j, bits)
  {
    assert UnitsTo(s, j, base) + [] == UnitsTo(s, j, base);
    assert ThrowersTo(s, j, base) + [] == ThrowersTo(s, j, base);
    assert NoticesTo(s, j, bits) + [] == NoticesTo(s, j, bits);
  }

  /** A due entry adds one unit or one thrower, as its recipe says. */
  lemma PlaceCountStep(s: seq<Spawn>, j: nat, base: u16)
    requires j < |s| && s[j].time == 0
    ensures |UnitsTo(s, j + 1, base)| == |UnitsTo(s, j, base)| + (if s[j].obj.MakeUnit? then 1 else 0)
    ensures |ThrowersTo(s, j + 1, base)| == |ThrowersTo(s, j, base)| + (if s[j].obj.MakeThrower? then 1 else 0)
  {
  }

  /** A due entry adds its notice at the end of the ones before it. */
  lemma PlaceNoticeStep(pre: seq<(Player, seq<u8>)>, s: seq<Spawn>, j: nat, bits: real -> u64)
    requires j < |s| && s[j].time == 0
    ensures pre + NoticesTo(s, j + 1, bits) == pre + NoticesTo(s, j, bits) + [Notice(s[j], bits)]
  {
  }

  /** A drain partitions the queue: every entry is either placed, as it is, or kept, one
      frame closer (so no kept entry can be at the uint8 maximum). */
  lemma {:induction false} DrainPartitions(s: seq<Spawn>, j: nat)
    requires j <= |s|
    ensures |KeptTo(s, j)| + |DueTo(s, j)| == j
    ensures forall e | e in DueTo(s, j) :: e in s && e.time == 0
    ensures forall e | e in KeptTo(s, j) :: e.time < 0xFF
    decreases j
  {
    if j > 0 {
      DrainPartitions(s, j - 1);
    }
  }

  /** The queue after n drains. */
  function Drained(s: seq<Spawn>, n: nat): seq<Spawn> {
    if n == 0 then s else Kept(Drained(s, n - 1))
  }

  lemma {:induction false} KeptCountsDown(s: seq<Spawn>, j: nat, n: nat)
    requires j <= |s| && n >= 1 && forall k | 0 <= k < |s| :: s[k].time < n
    ensures forall e | e in KeptTo(s, j) :: e.time < n - 1
    decreases j
  {
    if j > 0 {
      KeptCountsDown(s, j - 1, n);
    }
  }

  /** Every queued entry is placed within its delay: when every delay is below n, the
      queue is empty after n drains. */
  lemma {:induction false} DrainEmpties(s: seq<Spawn>, n: nat)
    requires forall k | 0 <= k < |s| :: s[k].time < n
    ensures Drained(s, n) == []
    decreases n
  {
    assert |s| == 0 || s[0].time < n;
    if n > 0 {
      var k := Kept(s);
      KeptCountsDown(s, |s|, n);
      assert forall i | 0 <= i < |k| :: k[i].time < n - 1 by {
        forall i | 0 <= i < |k| ensures k[i].time < n - 1 { assert k[i] in k; }
      }
      DrainEmpties(k, n - 1);
      DrainedShift(s, n);
    }
  }

  lemma {:induction false} DrainedShift(s: seq<Spawn>, n: nat)
    requires n >= 1
    ensures Drained(s, n) == Drained(Kept(s), n - 1)
    decreases n
  {
    if n > 1 {
      DrainedShift(s, n - 1);
    }
  }

  /** The entries the first j queue entries place, each paired with the object id the
      drain gives it: ids are handed out from `base` in queue order, in uint16
      arithmetic. */
  function PlacedTo(s: seq<Spawn>, j: nat, base: u16): (r: seq<(Spawn, u16)>)
    requires j <= |s|
    ensures |r| == |DueTo(s, j)|
  {
    if j == 0 then []
    else
      var e := s[j - 1];
      PlacedTo(s, j - 1, base) + (if e.time == 0 then [(e, Wrap16(base + |DueTo(s, j - 1)|))] else [])
  }

  /** The k-th placement is the k-th due entry, with id `base` + k. */
  lemma {:induction false} PlacedIds(s: seq<Spawn>, j: nat, base: u16)
    requires j <= |s|
    ensures forall k | 0 <= k < |PlacedTo(s, j, base)| ::
      PlacedTo(s, j, base)[k] == (DueTo(s, j)[k], Wrap16(base + k))
  {
    if j > 0 {
      PlacedIds(s, j - 1, base);
    }
  }

  /** The placements of a whole drain. */
  function Placed(s: seq<Spawn>, base: u16): seq<(Spawn, u16)> {
    PlacedTo(s, |s|, base)
  }

  /** The placements that build units, in order. */
  function UnitPlacements(ps: seq<(Spawn, u16)>): (r: seq<(Spawn, u16)>)
    ensures forall k | 0 <= k < |r| :: r[k].0.obj.MakeUnit?
  {
    if ps == [] then []
    else
      var last := ps[|ps| - 1];
      UnitPlacements(ps[..|ps| - 1]) + (if last.0.obj.MakeUnit? then [last] else [])
  }

  /** The placements that build throwers, in order. */
  function ThrowerPlacements(ps: seq<(Spawn, u16)>): (r: seq<(Spawn, u16)>)
    ensures forall k | 0 <= k < |r| :: r[k].0.obj.MakeThrower?
  {
    if ps == [] then []
    else
      var last := ps[|ps| - 1];
      ThrowerPlacements(ps[..|ps| - 1]) + (if last.0.obj.MakeThrower? then [last] else [])
  }

  lemma UnitPlacementsSnoc(ps: seq<(Spawn, u16)>, x: (Spawn, u16))
    ensures UnitPlacements(ps + [x]) == UnitPlacements(ps) + (if x.0.obj.MakeUnit? then [x] else [])
  {
    assert (ps + [x])[..|ps|] == ps;
  }

  lemma ThrowerPlacementsSnoc(ps: seq<(Spawn, u16)>, x: (Spawn, u16))
    ensures ThrowerPlacements(ps + [x]) == ThrowerPlacements(ps) + (if x.0.obj.MakeThrower? then [x] else [])
  {
    assert (ps + [x])[..|ps|] == ps;
  }

  /** Every placement builds exactly one unit or one thrower. */
  lemma {:induction false} PlacementsPartition(ps: seq<(Spawn, u16)>)
    ensures |UnitPlacements(ps)| + |ThrowerPlacements(ps)| == |ps|
    decreases |ps|
  {
    if ps != [] {
      PlacementsPartition(ps[..|ps| - 1]);
    }
  }

  /** Distinct placements of one drain get distinct ids, as long as a drain places
      at most 65536 entries. */
  lemma PlacedIdsDistinct(s: seq<Spawn>, base: u16, a: nat, b: nat)
    requires a < b < |Placed(s, base)| && |s| <= 0x1_0000
    ensures Placed(s, base)[a].1 != Placed(s, base)[b].1
  {
    PlacedIds(s, |s|, base);
  }

  /** The unit placements among the first j queue entries, each with the object id the
      drain gives it: a due entry takes the id `base` plus the number of due entries
      before it, in uint16 arithmetic. */
  function UnitsTo(s: seq<Spawn>, j: nat, base: u16): seq<(Spawn, u16)>
    requires j <= |s|
  {
    if j == 0 then []
    else
      var e := s[j - 1];
      UnitsTo(s, j - 1, base)
      + (if e.time == 0 && e.obj.MakeUnit? then [(e, Wrap16(base + |DueTo(s, j - 1)|))] else [])
  }

  /** Where the unit placed for entry j goes: after the units placed for the entries
      before it. */
  function UnitSlot(s: seq<Spawn>, j: nat, base: u16): nat
    requires j <= |s|
  {
    |UnitsTo(s, j, base)|
  }

  /** Where the thrower placed for entry j goes. */
  function ThrowerSlot(s: seq<Spawn>, j: nat, base: u16): nat
    requires j <= |s|
  {
    |ThrowersTo(s, j, base)|
  }

  /** Every placement comes from an entry of the queue. */
  lemma {:induction false} PlacementsFromQueue(s: seq<Spawn>, j: nat, base: u16)
    requires j <= |s|
    ensures forall x | x in UnitsTo(s, j, base) :: x.0 in s
    ensures forall x | x in ThrowersTo(s, j, base) :: x.0 in s
  {
    if j > 0 {
      PlacementsFromQueue(s, j - 1, base);
    }
  }

  /** The thrower placements among the first j queue entries, with their ids. */
  function ThrowersTo(s: seq<Spawn>, j: nat, base: u16): seq<(Spawn, u16)>
    requires j <= |s|
  {
    if j == 0 then []
    else
      var e := s[j - 1];
      ThrowersTo(s, j - 1, base)
      + (if e.time == 0 && e.obj.MakeThrower? then [(e, Wrap16(base + |DueTo(s, j - 1)|))] else [])
  }

  /** The drain's unit and thrower placements are the unit and thrower parts of its
      placements. */
  lemma SplitPlacements(s: seq<Spawn>, j: nat, base: u16)
    requires j <= |s|
    ensures UnitsTo(s, j, base) == UnitPlacements(PlacedTo(s, j, base))
    ensures ThrowersTo(s, j, base) == ThrowerPlacements(PlacedTo(s, j, base))
  {
    SplitUnits(s, j, base);
    SplitThrowers(s, j, base);
  }

  lemma {:induction false} SplitUnits(s: seq<Spawn>, j: nat, base: u16)
    requires j <= |s|
    ensures UnitsTo(s, j, base) == UnitPlacements(PlacedTo(s, j, base))
    decreases j
  {
    if j > 0 {
      SplitUnits(s, j - 1, base);
      var ps, e := PlacedTo(s, j - 1, base), s[j - 1];
      if e.time == 0 {
        var x := (e, Wrap16(base + |DueTo(s, j - 1)|));
        assert PlacedTo(s, j, base) == ps + [x];
        assert UnitsTo(s, j, base) == UnitsTo(s, j - 1, base) + (if e.obj.MakeUnit? then [x] else []);
        UnitPlacementsSnoc(ps, x);
      } else {
        assert PlacedTo(s, j, base) == ps + [] == ps;
        assert UnitsTo(s, j, base) == UnitsTo(s, j - 1, base) + [];
      }
    }
  }

  lemma {:induction false} SplitThrowers(s: seq<Spawn>, j: nat, base: u16)
    requires j <= |s|
    ensures ThrowersTo(s, j, base) == ThrowerPlacements(PlacedTo(s, j, base))
    decreases j
  {
    if j > 0 {
      SplitThrowers(s, j - 1, base);
      var ps, e := PlacedTo(s, j - 1, base), s[j - 1];
      if e.time == 0 {
        var x := (e, Wrap16(base + |DueTo(s, j - 1)|));
        assert PlacedTo(s, j, base) == ps + [x];
        assert ThrowersTo(s, j, base) == ThrowersTo(s, j - 1, base) + (if e.obj.MakeThrower? then [x] else []);
        ThrowerPlacementsSnoc(ps, x);
      } else {
        assert PlacedTo(s, j, base) == ps + [] == ps;
        assert ThrowersTo(s, j, base) == ThrowersTo(s, j - 1, base) + [];
      }
    }
  }

  /** The packet that tells an owner where its placement landed: opcode 8, then the
      float64 bit patterns of x and y. */
  function SpawnedPacket(xBits: u64, yBits: u64): (r: seq<u8>)
    ensures |r| == 17 && r[0] == 8
  {
    [8] + BE64(xBits) + BE64(yBits)
  }

  /** The coordinates read back from a placement packet are the ones written. */
  lemma SpawnedPacketFields(xBits: u64, yBits: u64)
    ensures var r := SpawnedPacket(xBits, yBits);
      Read64(r[1..9]) == xBits && Read64(r[9..17]) == yBits
  {
    var r := SpawnedPacket(xBits, yBits);
    assert r[1..9] == BE64(xBits) && r[9..17] == BE64(yBits);
    ReadBE64(xBits);
    ReadBE64(yBits);
  }

  /** The notice the drain sends a placed entry's owner. `bits` stands for the float64
      bit pattern of a coordinate. */
  function Notice(e: Spawn, bits: real -> u64): (Player, seq<u8>) {
    (e.owner, SpawnedPacket(bits(e.x), bits(e.y)))
  }

  /** The owner notices of the due entries among the first j queue entries, in order. */
  function NoticesTo(s: seq<Spawn>, j: nat, bits: real -> u64): seq<(Player, seq<u8>)>
    requires j <= |s|
  {
    if j == 0 then []
    else NoticesTo(s, j - 1, bits) + (if s[j - 1].time == 0 then [Notice(s[j - 1], bits)] else [])
  }

  /** One notice per placed entry, in the order of placement. */
  lemma {:induction false} NoticesFollowPlacements(s: seq<Spawn>, j: nat, bits: real -> u64)
    requires j <= |s|
    ensures |NoticesTo(s, j, bits)| == |DueTo(s, j)|
    ensures forall k | 0 <= k < |DueTo(s, j)| :: NoticesTo(s, j, bits)[k] == Notice(DueTo(s, j)[k], bits)
    decreases j
  {
    if j > 0 {
      NoticesFollowPlacements(s, j - 1, bits);
    }
  }

  // ---- energy regeneration ----

  /** Frames between two regenerated energies at speed 1. */
  const RegenPeriod: u16 := 120

  /** One regeneration step of a player (energy, timer) below its maximum: the timer
      drops by the game's speed (uint16 arithmetic, so never below zero) and at zero
      grants one energy and restarts. */
  function RegenStep(energy: u16, timer: u16, max: u16, speed: u16): (r: (u16, u16))
    ensures r.0 == energy || (energy < max && r.0 == energy + 1 && r.1 == RegenPeriod)
  {
    if energy < max then
      var t := Wrap16(timer - speed);
      if t == 0 then (Clamp(Wrap16(energy + 1), max), RegenPeriod) else (energy, t)
    else (energy, timer)
  }

  /** n regeneration steps. */
  function RegenN(energy: u16, timer: u16, max: u16, speed: u16, n: nat): (u16, u16) {
    if n == 0 then (energy, timer)
    else
      var prev := RegenN(energy, timer, max, speed, n - 1);
      RegenStep(prev.0, prev.1, max, speed)
  }

  /** Regeneration never fills a player past the maximum. */
  lemma {:induction false} RegenBounded(energy: u16, timer: u16, max: u16, speed: u16, n: nat)
    requires energy <= max
    ensures RegenN(energy, timer, max, speed, n).0 <= max
    decreases n
  {
    if n > 0 {
      RegenBounded(energy, timer, max, speed, n - 1);
    }
  }

  /** At speed 1 a player below the maximum with a fresh timer gains nothing for 119
      frames and exactly one energy at frame 120, with the timer fresh again. */
  lemma {:induction false} RegenCountsDown(energy: u16, max: u16, n: nat)
    requires energy < max && n <= RegenPeriod as nat
    ensures RegenN(energy, RegenPeriod, max, 1, n) ==
      if n < RegenPeriod as nat then (energy, (RegenPeriod as int - n) as u16) else (energy + 1, RegenPeriod)
    decreases n
  {
    if n > 0 {
      RegenCountsDown(energy, max, n - 1);
    }
  }

  // ---- the end-of-tick verdict ----

  /** Status values: waiting in the room, or playing. */
  const Room: u8 := 0
  const Active: u8 := 1

  /** The match-end packet End(team) broadcasts. */
  function EndPacket(team: u8): (r: seq<u8>)
    ensures |r| == 2 && r[0] == 7 && r[1] == team
  {
    [7, team]
  }

  /** The end packets of an active tick, given whether every unit seen in the sweep
      was converted and the countdown after its decrement: team 2 wins when every unit
      (possibly none) is converted, team 0 when the countdown reaches zero, and both
      are announced when both hold. */
  function Verdict(allPoisoned: bool, frameAfter: u64): (r: seq<seq<u8>>)
    ensures |r| <= 2
    ensures (EndPacket(2) in r) <==> allPoisoned
    ensures (EndPacket(0) in r) <==> frameAfter == 0
  {
    (if allPoisoned then [EndPacket(2)] else []) + (if frameAfter == 0 then [EndPacket(0)] else [])
  }

  /** Go's uint (64-bit) decrement. */
  function Wrap64(x: int): (r: u64)
    ensures 0 <= x < 0x1_0000_0000_0000_0000 ==> r == x
  {
    x % 0x1_0000_0000_0000_0000
  }

  // ---- the sweep's removal, as written ----

  /** Go's append(s[:i], s[i+1:]...) on a slice whose capacity is its length: None where
      the slice expressions are out of range, which panics. */
  function SpliceOut<T>(s: seq<T>, i: nat): (r: Option<seq<T>>)
    ensures r.Some? <==> i + 1 <= |s|
    ensures r.Some? ==> |r.value| == |s| - 1
    ensures r.Some? ==> forall k | 0 <= k < i :: r.value[k] == s[k]
    ensures r.Some? ==> forall k | i <= k < |s| - 1 :: r.value[k] == s[k + 1]
  {
    if i + 1 <= |s| then Some(s[..i] + s[i + 1..]) else None
  }

  /** One removal step of the unit sweep as written, for a dead unit at index i: the
      unit's Death runs first, and Earth's Death ends the match, which replaces the
      unit list with an empty one; then the unit is spliced out of the list. */
  function SweepRemovalAsWritten<T>(units: seq<T>, i: nat, isEarth: bool): Option<seq<T>>
    requires i < |units|
  {
    var afterDeath := if isEarth then [] else units;
    SpliceOut(afterDeath, i)
  }

  /** The removal of any other dead unit succeeds; the removal of a dead Earth, at any
      index, always panics: the team-1 victory brings the tick down. */
  lemma EarthDeathPanicsSweep<T>(units: seq<T>, i: nat)
    requires i < |units|
    ensures SweepRemovalAsWritten(units, i, true) == None
    ensures SweepRemovalAsWritten(units, i, false) == Some(units[..i] + units[i + 1..])
  {
  }
}
