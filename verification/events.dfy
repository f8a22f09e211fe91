/** The dispatchable payload: an event object with a cooperative cancellation flag. */
module Events {

  /** The identity of a Java class, as returned by `getClass()`: the key of a registry slot. */
  type ClassName = string

  /**
   * The base class of every event. Concrete event kinds carry further payload that the
   * dispatcher never looks at; what it does use is the event's exact runtime class, `kind`.
   * The only mutable state is the cancellation flag, which handlers may set and the
   * producer consults after dispatch; the manager itself never reads it.
   */
  class Event {
    const kind: ClassName
    var cancelled: bool

    /** A fresh event of the given runtime class is not cancelled. */
    constructor (kind: ClassName)
      ensures this.kind == kind && !cancelled
    {
      this.kind := kind;
      cancelled := false;
    }

    /** Sets the flag to exactly `b`, whatever it was before. */
    method SetCancelled(b: bool)
      modifies this
      ensures cancelled == b
    {
      cancelled := b;
    }

    /** Reads the flag; changes nothing (the method may modify nothing). */
    method IsCancelled() returns (b: bool)
      ensures b == cancelled
    {
      b := cancelled;
    }
  }

  /**
   * Setting the flag twice to the same value leaves the event as one call leaves it:
   * the second call observes `b` and changes nothing.
   */
  method SetCancelledTwice(e: Event, b: bool)
    modifies e
    ensures e.cancelled == b
  {
    e.SetCancelled(b);
    var once := e.IsCancelled();
    e.SetCancelled(b);
    var twice := e.IsCancelled();
    assert once == twice == b;
  }
}
