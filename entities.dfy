/** The closed set of entity variants a card can produce, and the per-variant constants
    of the unit constructors (NewEarth, NewFlask, ... in object/games/unit.go). */
module Entities {
  import opened Bytes

  /** One tag per unit variant; Note and Bag carry their subsidy amount. */
  datatype UnitKind =
    | Earth
    | Flask
    | Note(subEnergy: u16)
    | Bag(addEnergy: u16)
    | Pen
    | BigPencil
    | Sharpener
    | Alarm
    | Dictionary
    | PaintBrush

  /** Area effects; they act on whatever units the spatial index returns, which is not modelled. */
  datatype Magic =
    | DamageMagic(damage: u32, distance: u32)
    | HealMagic(heal: u32, distance: u32)

  /** A spawn recipe: what one entry of a card's spawn list builds. */
  datatype Recipe =
    | MakeUnit(kind: UnitKind)
    | MakeThrower(height: real, typeid: u16, magic: Magic)

  /** Frames between two Flask energy grants (60 * 5). */
  const FlaskPeriod: int := 300

  function TypeId(k: UnitKind): u16 {
    match k
    case Flask => 0
    case Note(_) => 1
    case Bag(_) => 2
    case Pen => 3
    case BigPencil => 4
    case Earth => 5
    case Sharpener => 6
    case Alarm => 7
    case Dictionary => 8
    case PaintBrush => 9
  }

  function MaxHealth(k: UnitKind): u32 {
    match k
    case Earth => 5000
    case Flask => 350
    case Note(_) => 100
    case Bag(_) => 150
    case Pen => 500
    case BigPencil => 1000
    case Sharpener => 700
    case Alarm => 200
    case Dictionary => 2000
    case PaintBrush => 400
  }

  function Width(k: UnitKind): real {
    match k
    case Earth => 8.25
    case Flask => 1.62
    case Note(_) => 2.25
    case Bag(_) => 3.07
    case Pen => 1.0
    case BigPencil => 6.52
    case Sharpener => 3.49
    case Alarm => 1.69
    case Dictionary => 1.06
    case PaintBrush => 4.08
  }

  function Height(k: UnitKind): real {
    match k
    case Earth => 4.56
    case Flask => 2.71
    case Note(_) => 2.92
    case Bag(_) => 3.59
    case Pen => 1.0
    case BigPencil => 1.49
    case Sharpener => 2.34
    case Alarm => 1.96
    case Dictionary => 3.04
    case PaintBrush => 1.29
  }

  /** The reload time of the units that act on a cooldown; zero for the others. */
  function MaxCooltime(k: UnitKind): u8 {
    match k
    case BigPencil => 120
    case Sharpener => 60
    case PaintBrush => 30
    case _ => 0
  }

  /** Units whose Run fixes their facing from the side of the arena they spawned on. */
  predicate Faces(k: UnitKind) {
    k.BigPencil? || k.Sharpener? || k.PaintBrush?
  }
}
