/**
 The contract of a phaser as its clients rely on it (deps/sigmux/phaser.h): critical sections
 come and go, and a drain may return only when every section that was inside when the drain
 began has left. `Phaser` proves that the counter protocol refines this specification;
 `SignalHandler` and `Sigmux` are built on top of it.
 */
module GracePeriod {

  /** One pass through enter ... exit. Identities are never reused. */
  type Section = nat

  /** `inside` are the sections that have entered and not left; while `draining`, `pending` are
      the ones among them that were already inside when the drain began. */
  datatype Grace = Grace(inside: set<Section>, draining: bool, pending: set<Section>) {

    ghost predicate Valid() {
      && pending <= inside
      && (!draining ==> pending == {})
    }

    function Enter(s: Section): Grace {
      this.(inside := inside + {s})
    }

    function Exit(s: Section): Grace {
      this.(inside := inside - {s}, pending := pending - {s})
    }

    /** Drains are serialised by the callers, so a second one never starts on top of this one. */
    function Begin(): Grace
      requires !draining
    {
      this.(draining := true, pending := inside)
    }

    function Finish(): Grace
      requires draining && pending == {}
    {
      this.(draining := false)
    }
  }

  const Quiet := Grace({}, false, {})

  datatype Event = Enters(s: Section) | Exits(s: Section) | Begins | Finishes | Stutters

  ghost predicate Allowed(g: Grace, e: Event) {
    match e
    case Enters(s) => s !in g.inside
    case Exits(s) => s in g.inside
    case Begins => !g.draining
    case Finishes => g.draining && g.pending == {}
    case Stutters => true
  }

  function After(g: Grace, e: Event): Grace
    requires Allowed(g, e)
  {
    match e
    case Enters(s) => g.Enter(s)
    case Exits(s) => g.Exit(s)
    case Begins => g.Begin()
    case Finishes => g.Finish()
    case Stutters => g
  }
}
