/**
 * The shared game state (com.mygdx.controller.GameState): the two rosters,
 * the bullets in flight, the occupancy grid, and the observers that are told
 * about published events (com.mygdx.observer.GameObserver).
 */
module GameWorld {
  import opened Outcomes
  import opened Settings
  import opened Occupancy
  import opened Lists
  import opened Events
  import opened Entities

  /** An observer, known only by identity. */
  datatype ObserverRef = ObserverRef(handle: nat)

  /** The handleEvent overload an event is delivered to. */
  datatype Handler = OnCharacterMove | OnCharacterAttack | OnHeroAttack

  /** One call `observer.handleEvent(event)`. */
  datatype Delivery = Delivery(observer: ObserverRef, handler: Handler, event: Event)

  /** The overload Java picks for an event of one of the three subclasses. */
  function HandlerFor(e: Event): Handler
    requires !e.GameEvent?
  {
    match e
    case CharacterMove(_, _, _, _) => OnCharacterMove
    case CharacterAttack(_, _, _, _, _, _, _) => OnCharacterAttack
    case HeroAttack(_, _, _, _) => OnHeroAttack
  }

  /** Every observer, in registration order, handed the event through its overload. */
  function Deliveries(observers: seq<ObserverRef>, e: Event): (ds: seq<Delivery>)
    requires !e.GameEvent?
  {
    seq(|observers|, i requires 0 <= i < |observers| => Delivery(observers[i], HandlerFor(e), e))
  }

  class World {
    var heroes: seq<Character>
    var enemies: seq<Character>
    var bullets: seq<Bullet>
    var grid: Grid
    var observers: seq<ObserverRef>

    /** Each roster holds an object once and the grid is well formed, every cell free or taken. */
    ghost predicate Valid()
      reads this, grid, grid.matrix
    {
      grid.Valid() && grid.Contents().Binary() && Distinct(heroes) && Distinct(enemies) && Distinct(bullets)
    }

    /** The GameState constructor: adopts the collections; no observers yet. */
    constructor (heroes: seq<Character>, enemies: seq<Character>, bullets: seq<Bullet>, grid: Grid)
      ensures this.heroes == heroes && this.enemies == enemies && this.bullets == bullets && this.grid == grid
      ensures observers == []
    {
      this.heroes, this.enemies, this.bullets, this.grid := heroes, enemies, bullets, grid;
      observers := [];
    }

    /** GameState.addObserver: appends. */
    method AddObserver(o: ObserverRef)
      modifies this`observers
      ensures observers == old(observers) + [o]
    {
      observers := observers + [o];
    }

    /** GameState.removeObserver: List.remove drops the first registration of o. */
    method RemoveObserver(o: ObserverRef)
      modifies this`observers
      ensures observers == RemoveFirst(old(observers), o)
      ensures multiset(observers) == multiset(old(observers)) - multiset{o}
    {
      RemoveFirstMultiset(observers, o);
      observers := RemoveFirst(observers, o);
    }

    /**
     * GameState.notifyObservers: each observer in turn gets the event through
     * the overload for its class; a bare GameEvent throws, but only when
     * there is an observer to hand it to. Nothing in the state changes.
     */
    method NotifyObservers(e: Event) returns (r: Result<seq<Delivery>>)
      ensures observers == [] ==> r == Ok([])
      ensures e.GameEvent? && observers != [] ==> r == Err(UnsupportedOperation)
      ensures !e.GameEvent? ==> r == Ok(Deliveries(observers, e))
    {
      var done: seq<Delivery> := [];
      var i := 0;
      while i < |observers|
        invariant 0 <= i <= |observers|
        invariant e.GameEvent? ==> i == 0 && done == []
        invariant !e.GameEvent? ==> |done| == i
        invariant !e.GameEvent? ==> forall k :: 0 <= k < i ==> done[k] == Delivery(observers[k], HandlerFor(e), e)
      {
        var o := observers[i];
        if e.CharacterMove? {
          done := done + [Delivery(o, OnCharacterMove, e)];
        } else if e.CharacterAttack? {
          done := done + [Delivery(o, OnCharacterAttack, e)];
        } else if e.HeroAttack? {
          done := done + [Delivery(o, OnHeroAttack, e)];
        } else {
          return Err(UnsupportedOperation);
        }
        i := i + 1;
      }
      assert !e.GameEvent? ==> done == Deliveries(observers, e);
      return Ok(done);
    }
  }
}
