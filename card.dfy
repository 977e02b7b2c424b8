/** Cards: the static catalog, the per-deck-slot cost/overcost ledger and the
    card-use admission rule (object/games/card.go). */
module Cards {
  import opened Bytes
  import opened Entities

  /** A card as held in a deck slot. `cost` is what playing it charges now;
      `overcost` is debt: cost reductions that could not be taken from `cost`
      because it was already zero, and that a later refund pays back first. */
  datatype Card = Card(
    id: u32,
    cost: u16,
    overcost: u16,
    width: real,
    height: real,
    isCollision: bool,
    spawnSpeed: u16,
    spawnList: seq<Recipe>)
  {
    /** The ledger is balanced when at most one of cost and overcost is non-zero. */
    predicate Balanced() {
      cost == 0 || overcost == 0
    }

    /** The card's effective price: cost, less the outstanding debt. */
    function Net(): int {
      cost - overcost
    }

    /** Refund k (AddCost): the refund first pays down overcost and only the
        remainder raises cost. The source returns the new cost, `c.cost`. */
    function AddCost(k: u16): (c: Card)
      ensures c == this.(cost := c.cost, overcost := c.overcost)
      ensures overcost > k ==> c.cost == cost && c.Net() == Net() + k
      ensures overcost <= k ==> c.overcost == 0
      ensures overcost <= k && cost + k - overcost < 0x1_0000 ==> c.Net() == Net() + k
      ensures Balanced() ==> c.Balanced()
    {
      if overcost > k then
        this.(overcost := overcost - k)
      else
        this.(cost := Wrap16(cost + (k - overcost)), overcost := 0)
    }

    /** Charge k (SubCost): cost saturates at zero and the shortfall becomes
        overcost. The source returns the new cost, `c.cost`. */
    function SubCost(k: u16): (c: Card)
      ensures c == this.(cost := c.cost, overcost := c.overcost)
      ensures cost < k ==> c.cost == 0
      ensures cost < k && overcost + (k - cost) < 0x1_0000 ==> c.overcost == overcost + (k - cost)
      ensures cost >= k ==> c.cost == cost - k && c.overcost == overcost
      ensures Balanced() ==> c.Balanced()
    {
      if cost < k then
        this.(overcost := Wrap16(overcost + (k - cost)), cost := 0)
      else
        this.(cost := cost - k)
    }

    /** The 6-byte wire form: big-endian uint32 id, then big-endian uint16 cost. */
    function Data(): (r: seq<u8>)
      ensures |r| == 6
      ensures Read32(r) == id && Read16(r[4..]) == cost
    {
      var idBytes, costBytes := BE32(id), BE16(cost);
      assert (idBytes + costBytes)[..4] == idBytes && (idBytes + costBytes)[4..] == costBytes;
      idBytes + costBytes
    }

    /** Whether the card may be put down at x by a player of `team`. Footprint-checked
        cards keep team 0 inside [-50, 50 - width] and keep team 1 out of the open
        interval (-50, 50 - width); team 2 and any other team value are not restricted. */
    predicate Placeable(team: u8, x: int) {
      if !isCollision then true
      else if team == 0 then !(x < -50 || x as real + width > 50.0)
      else if team == 1 then !(x > -50 && x as real + width < 50.0)
      else true
    }

    /** The admission test of UseCard: affordable with `available`, and placeable. */
    predicate Usable(available: u16, team: u8, x: int) {
      !(cost > available) && Placeable(team, x)
    }
  }

  /** The zero-value card (`Card{}`), id 0: what empty deck slots hold. */
  const EmptyCard: Card := Card(0, 0, 0, 0.0, 0.0, false, 0, [])

  function CollisionCard(id: u32, cost: u16, width: real, height: real, kind: UnitKind): Card {
    Card(id, cost, 0, width, height, true, 0, [MakeUnit(kind)])
  }

  function CardFlask(): Card { CollisionCard(1, 5, 1.62, 2.71, Flask) }
  function CardNote(): Card { CollisionCard(2, 7, 2.25, 2.92, Note(1)) }
  function CardBigPencil(): Card { CollisionCard(3, 5, 6.52, 1.49, BigPencil) }
  function CardPaint(): Card {
    Card(4, 3, 0, 0.0, 0.0, false, 0, [MakeThrower(3.0, 10, HealMagic(100, 5))])
  }
  function CardErasers(): Card {
    var dm := DamageMagic(100, 4);
    Card(5, 2, 0, 0.0, 0.0, false, 0,
         [MakeThrower(3.0, 11, dm), MakeThrower(4.0, 11, dm), MakeThrower(5.0, 11, dm)])
  }
  function CardSharpener(): Card { CollisionCard(6, 6, 3.49, 2.34, Sharpener) }
  function CardBag(): Card { CollisionCard(7, 4, 3.07, 3.59, Bag(1)) }
  function CardAlarm(): Card { CollisionCard(8, 2, 1.69, 1.96, Alarm) }
  function CardDictionary(): Card { CollisionCard(9, 8, 1.06, 3.04, Dictionary) }
  function CardPaintBrush(): Card { CollisionCard(10, 3, 4.08, 1.29, PaintBrush) }

  /** CardList: the catalog, indexed by card id. */
  function CardList(): (r: seq<Card>)
    ensures |r| == 11
    ensures forall i | 0 <= i < |r| :: r[i].id == i && r[i].overcost == 0
    ensures r[0] == EmptyCard
  {
    [EmptyCard, CardFlask(), CardNote(), CardBigPencil(), CardPaint(), CardErasers(),
     CardSharpener(), CardBag(), CardAlarm(), CardDictionary(), CardPaintBrush()]
  }

  /** A footprint-checked card admits both team 0 and team 1 at the same x only on
      the boundary of team 0's zone. */
  lemma ZonesMeetOnlyAtEdges(c: Card, x: int)
    requires c.isCollision && c.Placeable(0, x) && c.Placeable(1, x)
    ensures x == -50 || x as real + c.width == 50.0
  {
  }

  /** Charging k and then refunding k gives back the very same card, provided the
      ledger is balanced and the charge does not overflow overcost. */
  lemma SubThenAddRestores(c: Card, k: u16)
    requires c.Balanced()
    requires c.overcost + k < 0x1_0000
    ensures c.SubCost(k).AddCost(k) == c
  {
    if c.cost < k {
      if c.overcost > 0 {
        assert c.cost == 0;
      }
    }
  }

  /** Refunding k and then charging k gives back the very same card, provided the
      ledger is balanced and the refund does not overflow cost. */
  lemma AddThenSubRestores(c: Card, k: u16)
    requires c.Balanced()
    requires c.cost + k < 0x1_0000
    ensures c.AddCost(k).SubCost(k) == c
  {
    if c.overcost > 0 {
      assert c.cost == 0;
    }
  }

  /** One ledger operation, as Note units apply them to deck slots. */
  datatype CostOp = Add(k: u16) | Sub(k: u16)

  function Step(c: Card, op: CostOp): Card {
    match op
    case Add(k) => c.AddCost(k)
    case Sub(k) => c.SubCost(k)
  }

  /** The operation does not wrap a uint16 field. */
  predicate StepFits(c: Card, op: CostOp) {
    match op
    case Add(k) => c.overcost > k || c.cost + k - c.overcost < 0x1_0000
    case Sub(k) => c.cost >= k || c.overcost + k - c.cost < 0x1_0000
  }

  function Apply(c: Card, ops: seq<CostOp>): Card
    decreases |ops|
  {
    if ops == [] then c else Apply(Step(c, ops[0]), ops[1..])
  }

  predicate Fits(c: Card, ops: seq<CostOp>)
    decreases |ops|
  {
    ops == [] || (StepFits(c, ops[0]) && Fits(Step(c, ops[0]), ops[1..]))
  }

  /** The total refunded minus the total charged. */
  function Delta(ops: seq<CostOp>): int
    decreases |ops|
  {
    if ops == [] then 0
    else (match ops[0] case Add(k) => k case Sub(k) => -(k as int)) + Delta(ops[1..])
  }

  /** The ledger behaves as a single signed counter: after any sequence of AddCost
      and SubCost calls that does not overflow, starting from a balanced card, the card
      is still balanced, its cost is the positive part and its overcost the negative part
      of (initial cost - initial overcost + refunds - charges). */
  lemma {:induction false} LedgerIsSignedCounter(c: Card, ops: seq<CostOp>)
    requires c.Balanced() && Fits(c, ops)
    ensures Apply(c, ops).Balanced()
    ensures Apply(c, ops).Net() == c.Net() + Delta(ops)
    ensures var n := c.Net() + Delta(ops);
            Apply(c, ops).cost == (if n > 0 then n else 0)
            && Apply(c, ops).overcost == (if n < 0 then -n else 0)
    decreases |ops|
  {
    if ops != [] {
      var d := Step(c, ops[0]);
      assert d.Net() == c.Net() + (match ops[0] case Add(k) => k case Sub(k) => -(k as int));
      LedgerIsSignedCounter(d, ops[1..]);
    }
  }
}
