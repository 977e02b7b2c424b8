/** A connected player: economy, deck, play order, and the byte layouts built from a
    player (object/games/player.go). */
module Players {
  import opened Bytes
  import opened Cards

  /** Width of the zero-padded name field in the roster record. */
  const NameWidth: int := 20

  /** The source's [8]Card. */
  type Deck = s: seq<Card> | |s| == 8
    witness [EmptyCard, EmptyCard, EmptyCard, EmptyCard, EmptyCard, EmptyCard, EmptyCard, EmptyCard]

  /** The source's [8]uint8 play order, whose entries always index the deck. */
  type Order = s: seq<u8> | |s| == 8 && forall k | 0 <= k < |s| :: s[k] < 8
    witness [0, 0, 0, 0, 0, 0, 0, 0]

  class Player {
    var id: u16
    var name: seq<u8>
    var ping: int
    var lastTime: seq<int>
    var team: u8
    var energy: u16
    var energyTime: u16
    var maxEnergy: u16
    /** The Go fields are [8]Card and [8]uint8 value arrays embedded in the player, so
        they have no identity of their own: each is a sequence of length 8 that the
        methods update slot by slot. `order` holds deck indices: slots 0..3 are the
        hand, slots 4..7 the queue of cards to come. */
    var deck: Deck
    var order: Order

    /** PlayerSet: every field at its zero value. */
    constructor ()
      ensures id == 0 && name == [] && ping == 0 && lastTime == [] && team == 0
      ensures energy == 0 && energyTime == 0 && maxEnergy == 0
      ensures deck == Zeros8(EmptyCard) && order == Zeros8(0)
    {
      id, name, ping, lastTime, team := 0, [], 0, [], 0;
      energy, energyTime, maxEnergy := 0, 0, 0;
      deck := Zeros8(EmptyCard);
      order := Zeros8(0);
    }

    /** GetEnergy: add e (uint16 arithmetic), clamp to maxEnergy, return the new energy. */
    method GetEnergy(e: u16) returns (r: u16)
      modifies this`energy
      ensures r == energy && energy == Clamp(Wrap16(old(energy) + e), maxEnergy)
      ensures energy <= maxEnergy
      ensures old(energy) + e < 0x1_0000 && old(energy) + e <= maxEnergy ==> energy == old(energy) + e
    {
      energy := Wrap16(energy + e);
      if energy > maxEnergy {
        energy := maxEnergy;
      }
      r := energy;
    }

    /** Note's subsidy: SubCost(k) on every deck slot, in place. */
    method SubCostAll(k: u16)
      modifies this`deck
      ensures deck == SubAll(old(deck), k)
    {
      for i := 0 to |deck|
        invariant |deck| == 8
        invariant forall m | 0 <= m < 8 :: deck[m] == if m < i then old(deck)[m].SubCost(k) else old(deck)[m]
      {
        deck := deck[i := deck[i].SubCost(k)];
      }
    }

    /** The subsidy's reversal: AddCost(k) on every deck slot, in place. */
    method AddCostAll(k: u16)
      modifies this`deck
      ensures deck == AddAll(old(deck), k)
    {
      for i := 0 to |deck|
        invariant |deck| == 8
        invariant forall m | 0 <= m < 8 :: deck[m] == if m < i then old(deck)[m].AddCost(k) else old(deck)[m]
      {
        deck := deck[i := deck[i].AddCost(k)];
      }
    }

    /** SetDeck: read consecutive big-endian uint32 card ids, skip zero ids, fill the
        slots in order, then replace each slot by the catalog entry. `ok` is false exactly
        when the source panics (a trailing partial id, a ninth id, or an id the catalog
        does not have); the deck is then unspecified, as the process dies. */
    method SetDeck(b: seq<u8>) returns (ok: bool)
      modifies this`deck
      ensures ok == DeckFor(b).Some?
      ensures ok ==> deck == DeckFor(b).value
    {
      var cardidList := new u32[8](_ => 0);
      assert cardidList[..] == Zeros8(0);
      var rest := b;
      var i := 0;
      while |rest| > 0
        invariant |deck| == 8 && 0 <= i <= 8 && cardidList.Length == 8
        invariant ParseIds(b, Zeros8(0), 0) == ParseIds(rest, cardidList[..], i)
        decreases |rest|
      {
        if |rest| < 4 || i >= 8 {
          return false;
        }
        cardidList[i] := Read32(rest[..4]);
        rest := rest[4..];
        if cardidList[i] != 0 {
          i := i + 1;
        }
      }
      assert ParseIds(b, Zeros8(0), 0) == Some(cardidList[..]);
      ghost var ids := cardidList[..];
      for j := 0 to 8
        invariant cardidList[..] == ids
        invariant forall m | 0 <= m < j :: cardidList[m] < |CardList()|
        invariant |deck| == 8
        invariant forall m | 0 <= m < j :: deck[m] == CardList()[cardidList[m]]
      {
        if cardidList[j] >= |CardList()| {
          return false;
        }
        deck := deck[j := CardList()[cardidList[j]]];
      }
      assert deck == seq(8, j requires 0 <= j < 8 => CardList()[ids[j]]);
      ok := true;
    }

    /** The use-card branch's rewrite of `order` after a successful play of hand slot
        `slot`. `spins` is true where the source loops forever (every candidate for the
        front of the queue is an empty card); the model stops after one full turn. */
    method RotateOrder(slot: nat) returns (spins: bool)
      requires slot < 8
      modifies this`order
      ensures (order, spins) == Rotate(old(order), slot, Ids(deck))
    {
      var used := order[slot];
      spins := false;
      if deck[order[4]].id != 0 {
        order := order[slot := order[4]];
        var o := used;
        var turns := 0;
        while true
          invariant turns <= 3 && o < 8
          invariant Rotate(old(order), slot, Ids(deck))
                    == Spin(Shifted(order, o), Ids(deck), 3 - turns)
          decreases 3 - turns
        {
          ShiftQueue(o);
          o := order[4];
          if deck[o].id != 0 {
            break;
          }
          if turns == 3 {
            spins := true;
            break;
          }
          turns := turns + 1;
        }
      }
    }

    /** The inner loop of the rotation: slots 5..7 move one place forward and o goes last. */
    method ShiftQueue(o: u8)
      requires o < 8
      modifies this`order
      ensures order == Shifted(old(order), o)
    {
      for i := 5 to 8
        invariant |order| == 8 && forall k | 0 <= k < 8 :: order[k] < 8
        invariant forall k | 4 <= k < i - 1 :: order[k] == old(order)[k + 1]
        invariant forall k | 0 <= k < 8 && !(4 <= k < i - 1) :: order[k] == old(order)[k]
      {
        order := order[i - 1 := order[i]];
      }
      order := order[7 := o];
    }

    /** Data: the 23-byte roster record. */
    function Data(): (r: seq<u8>)
      reads this
      ensures |r| == 3 + NameWidth
      ensures Read16(r) == id && r[2] == team
      ensures forall k | 0 <= k < NameWidth :: r[3 + k] == if k < |name| then name[k] else 0
    {
      var head := BE16(id) + [team];
      assert (head + NameField(name))[..2] == BE16(id);
      head + NameField(name)
    }
  }

  function Zeros8<T>(v: T): seq<T> {
    [v, v, v, v, v, v, v, v]
  }

  function Clamp(v: u16, max: u16): u16 {
    if v > max then max else v
  }

  function SubAll(d: seq<Card>, k: u16): seq<Card> {
    seq(|d|, i requires 0 <= i < |d| => d[i].SubCost(k))
  }

  function AddAll(d: seq<Card>, k: u16): seq<Card> {
    seq(|d|, i requires 0 <= i < |d| => d[i].AddCost(k))
  }

  /** The ledger invariant of a deck: every slot balanced with room for a k-charge. */
  predicate DeckBalanced(d: seq<Card>, k: u16) {
    forall i | 0 <= i < |d| :: d[i].Balanced() && d[i].overcost + k < 0x1_0000
  }

  /** Note's subsidy is undone exactly: charging every slot and refunding every slot
      restores the deck. */
  lemma SubsidyRoundTrip(d: seq<Card>, k: u16)
    requires DeckBalanced(d, k)
    ensures AddAll(SubAll(d, k), k) == d
  {
    forall i | 0 <= i < |d|
      ensures AddAll(SubAll(d, k), k)[i] == d[i]
    {
      SubThenAddRestores(d[i], k);
    }
  }

  /** The name field: the name cut to 20 bytes, or padded with zero bytes. */
  function NameField(name: seq<u8>): (r: seq<u8>)
    ensures |r| == NameWidth
  {
    seq(NameWidth, k requires 0 <= k < NameWidth => if k < |name| then name[k] else 0)
  }

  /** Send's frame: a big-endian uint16 payload length, then the payload. */
  function Frame(payload: seq<u8>): (r: seq<u8>)
    ensures |r| == 2 + |payload| && r[2..] == payload
    ensures |payload| < 0x1_0000 ==> Unframe(r) == Some(payload)
  {
    var head := BE16(Wrap16(|payload|));
    var r := head + payload;
    assert r[..2] == head && r[2..] == payload;
    assert Read16(r) == Read16(head);
    assert |payload| < 0x1_0000 ==> Read16(r) == |payload| && r[2..2 + Read16(r)] == payload;
    r
  }

  /** The receiving side of a frame: the payload the length prefix announces. */
  function Unframe(s: seq<u8>): Option<seq<u8>> {
    if |s| >= 2 && |s| - 2 >= Read16(s) then Some(s[2..2 + Read16(s)]) else None
  }

  datatype Option<T> = None | Some(value: T)

  /** The chat broadcast: opcode 2, then name + ": " + text. */
  function ChatPacket(name: seq<u8>, text: seq<u8>): (r: seq<u8>)
    ensures |r| == 3 + |name| + |text|
    ensures r[0] == 2 && r[1..1 + |name|] == name
    ensures r[1 + |name|..3 + |name|] == [58, 32] && r[3 + |name|..] == text
  {
    [2] + name + [58, 32] + text
  }

  /** The deck ids as the rotation sees them. */
  function Ids(d: seq<Card>): (r: seq<int>)
    ensures |r| == |d| && forall i | 0 <= i < |d| :: r[i] == d[i].id
  {
    seq(|d|, i requires 0 <= i < |d| => d[i].id as int)
  }

  // ---- SetDeck's parser ----

  /** The first loop of SetDeck: `i` is the slot the next id is written to; a zero id is
      written and then overwritten (i-- followed by i++). None where the source panics. */
  function ParseIds(b: seq<u8>, slots: seq<u32>, i: int): (r: Option<seq<u32>>)
    requires |slots| == 8 && 0 <= i <= 8
    ensures r.Some? ==> |r.value| == 8
    decreases |b|
  {
    if |b| == 0 then Some(slots)
    else if |b| < 4 || i >= 8 then None
    else
      var v := Read32(b[..4]);
      ParseIds(b[4..], slots[i := v], if v == 0 then i else i + 1)
  }

  /** The deck SetDeck builds from a deck-set payload, or None where it panics. */
  function DeckFor(b: seq<u8>): (r: Option<seq<Card>>)
    ensures r.Some? ==> |r.value| == 8 && forall j | 0 <= j < 8 :: r.value[j] in CardList()
  {
    match ParseIds(b, Zeros8(0), 0)
    case None => None
    case Some(ids) =>
      if exists j | 0 <= j < 8 :: ids[j] >= |CardList()| then None
      else Some(seq(8, j requires 0 <= j < 8 => CardList()[ids[j]]))
  }

  /** The client side of deck-set: the ids, big-endian, back to back. */
  function EncodeIds(ids: seq<u32>): (r: seq<u8>)
    ensures |r| == 4 * |ids|
  {
    if ids == [] then [] else BE32(ids[0]) + EncodeIds(ids[1..])
  }

  function NonZero(ids: seq<u32>): (r: seq<u32>)
    ensures |r| <= |ids|
  {
    if ids == [] then []
    else if ids[0] == 0 then NonZero(ids[1..])
    else [ids[0]] + NonZero(ids[1..])
  }

  /** The parser reads the first encoded id back and writes it to slot i. */
  lemma ParseFirst(ids: seq<u32>, slots: seq<u32>, i: int)
    requires |slots| == 8 && 0 <= i < 8 && ids != []
    ensures ParseIds(EncodeIds(ids), slots, i)
            == ParseIds(EncodeIds(ids[1..]), slots[i := ids[0]], if ids[0] == 0 then i else i + 1)
  {
    var b := EncodeIds(ids);
    assert b[..4] == BE32(ids[0]) && b[4..] == EncodeIds(ids[1..]);
    ReadBE32(ids[0]);
  }

  /** The parser's result once the payload is used up. */
  lemma ParseDone(slots: seq<u32>, i: int)
    requires |slots| == 8 && 0 <= i <= 8
    requires forall j | i <= j < 8 :: slots[j] == 0
    ensures ParseIds(EncodeIds([]), slots, i) == Some(slots[..i] + NonZero([]) + Zeros8(0)[..8 - i])
  {
    assert slots[i..] == Zeros8(0)[..8 - i];
    assert slots == slots[..i] + [] + slots[i..];
  }

  /** Writing the first id to slot i and describing the rest describes the whole. */
  lemma ParseShape(ids: seq<u32>, slots: seq<u32>, i: int)
    requires |slots| == 8 && 0 <= i && i + |ids| <= 8 && ids != []
    requires forall j | i <= j < 8 :: slots[j] == 0
    ensures var v, rest := ids[0], ids[1..];
      var next := if v == 0 then i else i + 1;
      slots[i := v][..next] + NonZero(rest) + Zeros8(0)[..8 - next - |NonZero(rest)|]
      == slots[..i] + NonZero(ids) + Zeros8(0)[..8 - i - |NonZero(ids)|]
  {
    var v, rest := ids[0], ids[1..];
    if v == 0 {
      assert slots[i := v] == slots;
      assert NonZero(ids) == NonZero(rest);
    } else {
      assert slots[i := v][..i + 1] == slots[..i] + [v];
      assert NonZero(ids) == [v] + NonZero(rest);
      AppendRegroup(slots[..i], v, NonZero(rest), Zeros8(0)[..8 - (i + 1) - |NonZero(rest)|]);
    }
  }

  lemma {:induction false} ParseEncoded(ids: seq<u32>, slots: seq<u32>, i: int)
    requires |slots| == 8 && 0 <= i && i + |ids| <= 8
    requires forall j | i <= j < 8 :: slots[j] == 0
    ensures ParseIds(EncodeIds(ids), slots, i)
            == Some(slots[..i] + NonZero(ids) + Zeros8(0)[..8 - i - |NonZero(ids)|])
    decreases |ids|
  {
    if ids == [] {
      ParseDone(slots, i);
    } else {
      var v := ids[0];
      ParseFirst(ids, slots, i);
      ParseEncoded(ids[1..], slots[i := v], if v == 0 then i else i + 1);
      ParseShape(ids, slots, i);
    }
  }

  lemma AppendRegroup<T>(a: seq<T>, x: T, b: seq<T>, c: seq<T>)
    ensures a + [x] + b + c == a + ([x] + b) + c
  {
  }

  /** Deck-set round trip: encoding up to eight ids from the catalog and parsing them
      yields the catalog cards of the non-zero ids in order, with the id-0 card in the
      slots that are left over. */
  lemma DeckSetRoundTrip(ids: seq<u32>)
    requires |ids| <= 8
    requires forall j | 0 <= j < |ids| :: ids[j] < |CardList()|
    ensures DeckFor(EncodeIds(ids)).Some?
    ensures var deck := DeckFor(EncodeIds(ids)).value;
            var nz := NonZero(ids);
            |deck| == 8
            && (forall j | 0 <= j < |nz| :: nz[j] < |CardList()| && deck[j] == CardList()[nz[j]])
            && (forall j | |nz| <= j < 8 :: deck[j] == EmptyCard)
  {
    NonZeroBounded(ids);
    var parsed := ParsedSlots(ids);
    assert !exists j | 0 <= j < 8 :: parsed[j] >= |CardList()|;
  }

  /** The slots a deck-set payload of encoded ids parses to: the non-zero ids, then
      zeros. */
  lemma ParsedSlots(ids: seq<u32>) returns (parsed: seq<u32>)
    requires |ids| <= 8
    ensures ParseIds(EncodeIds(ids), Zeros8(0), 0) == Some(parsed) && |parsed| == 8
    ensures var nz := NonZero(ids);
      (forall j | 0 <= j < |nz| :: parsed[j] == nz[j]) && (forall j | |nz| <= j < 8 :: parsed[j] == 0)
  {
    ParseEncoded(ids, Zeros8(0), 0);
    var nz := NonZero(ids);
    parsed := nz + Zeros8(0)[..8 - |nz|];
    assert Zeros8<u32>(0)[..0] + nz + Zeros8(0)[..8 - |nz|] == parsed;
  }

  lemma {:induction false} NonZeroBounded(ids: seq<u32>)
    requires forall j | 0 <= j < |ids| :: ids[j] < |CardList()|
    ensures forall j | 0 <= j < |NonZero(ids)| :: 0 < NonZero(ids)[j] < |CardList()|
    decreases |ids|
  {
    if ids != [] {
      NonZeroBounded(ids[1..]);
    }
  }

  // ---- the play-order rotation ----

  /** One pass of the source's inner loop: slots 5..7 move forward, o goes to slot 7. */
  function Shifted(s: seq<u8>, o: u8): (r: seq<u8>)
    requires |s| == 8
    ensures |r| == 8
    ensures forall k | 0 <= k < 8 :: r[k] == if k < 4 then s[k] else if k < 7 then s[k + 1] else o
  {
    s[..4] + s[5..8] + [o]
  }

  /** Keep turning the queue (slots 4..7) until an id-0-free card is at its front;
      `fuel` more turns are allowed before the source would be looping forever. */
  function Spin(s: seq<u8>, ids: seq<int>, fuel: nat): (r: (seq<u8>, bool))
    requires |s| == 8 && |ids| == 8 && forall k | 0 <= k < 8 :: s[k] < 8
    ensures |r.0| == 8 && forall k | 0 <= k < 8 :: r.0[k] < 8
    decreases fuel
  {
    if ids[s[4]] != 0 then (s, false)
    else if fuel == 0 then (s, true)
    else Spin(Shifted(s, s[4]), ids, fuel - 1)
  }

  /** The rotation after playing hand slot `slot`: nothing happens when the queue's front
      card is empty; otherwise that card takes the played slot, the played card goes to
      the back of the queue and the queue turns until a non-empty card is at its front. */
  function Rotate(o: seq<u8>, slot: nat, ids: seq<int>): (r: (seq<u8>, bool))
    requires |o| == 8 && slot < 8 && |ids| == 8 && forall k | 0 <= k < 8 :: o[k] < 8
    ensures |r.0| == 8 && forall k | 0 <= k < 8 :: r.0[k] < 8
  {
    if ids[o[4]] == 0 then (o, false)
    else Spin(Shifted(o[slot := o[4]], o[slot]), ids, 3)
  }

  lemma ShiftedMultiset(s: seq<u8>, o: u8)
    requires |s| == 8
    ensures multiset(Shifted(s, o)) == multiset(s) - multiset{s[4]} + multiset{o}
  {
    assert s == s[..4] + [s[4]] + s[5..8];
  }

  lemma {:induction false} SpinPermutes(s: seq<u8>, ids: seq<int>, fuel: nat)
    requires |s| == 8 && |ids| == 8 && forall k | 0 <= k < 8 :: s[k] < 8
    ensures multiset(Spin(s, ids, fuel).0) == multiset(s)
    decreases fuel
  {
    if ids[s[4]] == 0 && fuel > 0 {
      var t := Shifted(s, s[4]);
      ShiftedMultiset(s, s[4]);
      SpinPermutes(t, ids, fuel - 1);
    }
  }

  /** Turning the queue leaves the hand alone, and ends at a non-empty front card
      unless the turns run out. */
  lemma {:induction false} SpinKeepsHand(s: seq<u8>, ids: seq<int>, fuel: nat)
    requires |s| == 8 && |ids| == 8 && forall k | 0 <= k < 8 :: s[k] < 8
    ensures s[..4] == Spin(s, ids, fuel).0[..4]
    ensures !Spin(s, ids, fuel).1 ==> ids[Spin(s, ids, fuel).0[4]] != 0
    decreases fuel
  {
    if ids[s[4]] == 0 && fuel > 0 {
      var t := Shifted(s, s[4]);
      assert t[..4] == s[..4];
      SpinKeepsHand(t, ids, fuel - 1);
    }
  }

  /** The rotation keeps `order` a permutation of what it was, and leaves the hand
      slots other than the played one alone. */
  lemma RotatePermutes(o: seq<u8>, slot: nat, ids: seq<int>)
    requires |o| == 8 && slot < 8 && |ids| == 8 && forall k | 0 <= k < 8 :: o[k] < 8
    ensures multiset(Rotate(o, slot, ids).0) == multiset(o)
  {
    if ids[o[4]] != 0 {
      var s1 := o[slot := o[4]];
      assert s1[4] == o[4];
      var t := Shifted(s1, o[slot]);
      ShiftedMultiset(s1, o[slot]);
      assert multiset(s1) == multiset(o) - multiset{o[slot]} + multiset{o[4]};
      SpinPermutes(t, ids, 3);
    }
  }

  /** The rotation leaves the hand slots other than the played one alone and, when it
      acts, puts the queue's front card into the played slot. */
  lemma RotateKeepsHand(o: seq<u8>, slot: nat, ids: seq<int>)
    requires |o| == 8 && slot < 8 && |ids| == 8 && forall k | 0 <= k < 8 :: o[k] < 8
    ensures forall k | 0 <= k < 4 && k != slot :: Rotate(o, slot, ids).0[k] == o[k]
    ensures ids[o[4]] != 0 && slot < 4 ==> Rotate(o, slot, ids).0[slot] == o[4]
  {
    if ids[o[4]] != 0 {
      var t := Shifted(o[slot := o[4]], o[slot]);
      SpinKeepsHand(t, ids, 3);
      var r := Rotate(o, slot, ids).0;
      assert r == Spin(t, ids, 3).0;
      assert r[..4] == t[..4];
      forall k | 0 <= k < 4
        ensures r[k] == o[slot := o[4]][k]
      {
        assert r[k] == r[..4][k];
      }
    }
  }

  /** The rotation's exit condition: untouched when the queue's front card is empty,
      otherwise a non-empty card is at the front unless the source would spin forever. */
  lemma RotateExit(o: seq<u8>, slot: nat, ids: seq<int>)
    requires |o| == 8 && slot < 8 && |ids| == 8 && forall k | 0 <= k < 8 :: o[k] < 8
    ensures ids[o[4]] == 0 ==> Rotate(o, slot, ids) == (o, false)
    ensures ids[o[4]] != 0 && !Rotate(o, slot, ids).1 ==> ids[Rotate(o, slot, ids).0[4]] != 0
  {
    if ids[o[4]] != 0 {
      SpinKeepsHand(Shifted(o[slot := o[4]], o[slot]), ids, 3);
    }
  }

  /** The source spins forever exactly when the queue's front card is not empty but the
      three cards behind it and the played card all are. */
  lemma RotateSpinsIff(o: seq<u8>, slot: nat, ids: seq<int>)
    requires |o| == 8 && slot < 8 && |ids| == 8 && forall k | 0 <= k < 8 :: o[k] < 8
    ensures var s1 := o[slot := o[4]];
            Rotate(o, slot, ids).1
            <==> ids[o[4]] != 0 && ids[s1[5]] == 0 && ids[s1[6]] == 0 && ids[s1[7]] == 0
                 && ids[o[slot]] == 0
  {
    var s1 := o[slot := o[4]];
    var t0 := Shifted(s1, o[slot]);
    var t1 := Shifted(t0, t0[4]);
    var t2 := Shifted(t1, t1[4]);
    var t3 := Shifted(t2, t2[4]);
    assert forall k | 0 <= k < 8 :: t0[k] < 8;
    assert forall k | 0 <= k < 8 :: t1[k] < 8;
    assert forall k | 0 <= k < 8 :: t2[k] < 8;
    assert t0[4] == s1[5] && t0[5] == s1[6] && t0[6] == s1[7] && t0[7] == o[slot];
    assert t1[4] == s1[6] && t1[5] == s1[7] && t1[6] == o[slot];
    assert t2[4] == s1[7] && t2[5] == o[slot];
    assert t3[4] == o[slot];
    if ids[o[4]] != 0 {
      assert Rotate(o, slot, ids) == Spin(t0, ids, 3);
      assert ids[t0[4]] == 0 ==> Spin(t0, ids, 3) == Spin(t1, ids, 2);
      assert ids[t1[4]] == 0 ==> Spin(t1, ids, 2) == Spin(t2, ids, 1);
      assert ids[t2[4]] == 0 ==> Spin(t2, ids, 1) == Spin(t3, ids, 0);
    }
  }
}
