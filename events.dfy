/**
 * The events the game publishes and sends over the wire (com.mygdx.event):
 * the bare GameEvent and its three subclasses, each carrying a type tag.
 * Their JSON text is not modelled: encoders and decoders are parameters.
 */
module Events {
  import opened Outcomes

  /** GameEvent.Type; the constant names are the tags on the wire. */
  datatype EventType = HERO_MOVE | ENEMY_MOVE | CHARACTER_ATTACK | HERO_ATTACK

  datatype Event =
    | GameEvent(kind: EventType)
    | CharacterMove(directionX: int, directionY: int, id: string, kind: EventType)
    | CharacterAttack(x: int, y: int, atk: int, speedX: int, speedY: int, rotation: int, kind: EventType)
    | HeroAttack(id: string, x: int, y: int, kind: EventType)

  /** Enum.name(). */
  function Name(t: EventType): string
  {
    match t
    case HERO_MOVE => "HERO_MOVE"
    case ENEMY_MOVE => "ENEMY_MOVE"
    case CHARACTER_ATTACK => "CHARACTER_ATTACK"
    case HERO_ATTACK => "HERO_ATTACK"
  }

  /** The receivers' comparison of a "type" text with each constant's name. */
  function ParseType(s: string): Option<EventType>
  {
    if s == "HERO_MOVE" then Some(HERO_MOVE)
    else if s == "ENEMY_MOVE" then Some(ENEMY_MOVE)
    else if s == "CHARACTER_ATTACK" then Some(CHARACTER_ATTACK)
    else if s == "HERO_ATTACK" then Some(HERO_ATTACK)
    else None
  }

  /** A tag read back from its name is the same tag, and only names are read as tags. */
  lemma ParseTypeInvertsName(t: EventType, s: string)
    ensures ParseType(Name(t)) == Some(t)
    ensures ParseType(s) == Some(t) ==> s == Name(t)
  {
  }

  /** CharacterMove's constructor asserts that each direction is -1, 0 or 1. */
  predicate WellFormed(e: Event)
  {
    e.CharacterMove? ==> -1 <= e.directionX <= 1 && -1 <= e.directionY <= 1
  }

  /**
   * What a receiver deserializes once the "type" text names a tag: the class
   * it chooses for that tag (CharacterMove for both moves, CharacterAttack,
   * HeroAttack), carrying the tag. Jackson fills a CharacterMove through its
   * setters, so its constructor's assertion does not run: the directions
   * may be anything.
   */
  predicate Routable(e: Event)
  {
    match e
    case GameEvent(_) => false
    case CharacterMove(_, _, _, k) => k == HERO_MOVE || k == ENEMY_MOVE
    case CharacterAttack(_, _, _, _, _, _, k) => k == CHARACTER_ATTACK
    case HeroAttack(_, _, _, k) => k == HERO_ATTACK
  }

  type WireEvent = e: Event | Routable(e) witness HeroAttack("", 0, 0, HERO_ATTACK)

  /**
   * Jackson reading one message: None when its "type" text names no event
   * type, or when the text is not JSON at all.
   */
  type Decoder = string -> Option<WireEvent>

  /** Jackson writing an event as JSON. */
  type Encoder = Event -> string
}
