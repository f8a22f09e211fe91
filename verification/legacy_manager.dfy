/**
 * The earlier, abstract event manager: the same registry, discovery and dispatch as
 * Manager.EventManager under other names, with a batch opener that takes zero or more
 * classes and writes each slot directly.
 */
module LegacyManager {
  import opened Events
  import opened Registry
  import opened Delivery

  class EventManager {
    /** The registry: event class to handler records, in the order they are invoked. */
    var eventHandlers: Slots

    /** Every record sits in the slot of the one class its method accepts. */
    ghost predicate Valid()
      reads this
    {
      Typed(eventHandlers)
    }

    /** A manager with no slot open (the constructor subclasses call). */
    constructor ()
      ensures Valid() && eventHandlers == map[]
    {
      eventHandlers := map[];
    }

    /** Opens the slot of `event` with a fresh empty list, dropping any handlers it held. */
    method AddEventTrigger(event: ClassName)
      requires Valid()
      modifies this
      ensures Valid()
      ensures eventHandlers == old(eventHandlers)[event := []]
    {
      eventHandlers := eventHandlers[event := []];
    }

    /**
     * Opens each class of `event` in order, each reset to an empty list. With no
     * classes at all the registry is left as it was.
     */
    method AddEventTriggers(event: seq<ClassName>)
      requires Valid()
      modifies this
      ensures Valid()
      ensures eventHandlers == OpenAll(old(eventHandlers), event)
      ensures event == [] ==> eventHandlers == old(eventHandlers)
    {
      for i := 0 to |event|
        invariant Valid()
        invariant eventHandlers == OpenAll(old(eventHandlers), event[..i])
      {
        assert event[..i + 1][..i] == event[..i];
        eventHandlers := eventHandlers[event[i] := []];
      }
      assert event[..|event|] == event;
    }

    /**
     * Scans the listener's declared methods in order and appends a record for each one
     * that is annotated, takes exactly one parameter, and whose parameter class has an
     * open slot; every other method is skipped without error.
     */
    method RegisterEvents(listener: Listener)
      requires Valid()
      modifies this
      ensures Valid()
      ensures eventHandlers == Register(old(eventHandlers), listener)
    {
      var methods := listener.methods;
      UntaggedListenerAddsNothing(old(eventHandlers), Listener(listener.id, methods[..0]));
      for i := 0 to |methods|
        invariant Valid()
        invariant eventHandlers == Register(old(eventHandlers), Listener(listener.id, methods[..i]))
      {
        var m := methods[i];
        RegisterStep(old(eventHandlers), listener.id, methods[..i], m);
        assert methods[..i + 1] == methods[..i] + [m];
        if !m.annotated {
          continue;
        }
        if |m.params| != 1 {
          continue;
        }
        if m.params[0] !in eventHandlers {
          continue;
        }
        eventHandlers := eventHandlers[m.params[0] := eventHandlers[m.params[0]] + [EventCaller(listener.id, m)]];
      }
      assert methods[..|methods|] == methods;
    }

    /**
     * Dispatches `event` to the slot of its exact class, as Manager.EventManager does:
     * Unregistered before any handler runs when no slot is open, otherwise the slot's
     * handlers in order on the same event, stopping at the first that throws. The
     * registry is never changed; `calls` records the invocations.
     */
    method InvokeTriggers(event: Event, run: Run) returns (r: Outcome, ghost calls: seq<Call>)
      requires Valid()
      modifies event
      ensures unchanged(this)
      ensures var d := Dispatch(eventHandlers, event.kind, run, old(event.cancelled));
        r == d.outcome && calls == d.calls && event.cancelled == d.cancelled
    {
      var clazz := event.kind;
      if clazz !in eventHandlers {
        r, calls := Fail(Unregistered(clazz)), [];
        return;
      }
      var handlers := eventHandlers[clazz];
      calls := [];
      var i := 0;
      while i < |handlers|
        invariant 0 <= i <= |handlers|
        invariant FanOut(handlers, 0, run, old(event.cancelled)) == Resume(calls, FanOut(handlers[i..], i, run, event.cancelled))
      {
        var caller := handlers[i];
        var seen := event.cancelled;
        var step := run(i, caller, seen);
        FanOutStep(handlers, i, run, seen, calls);
        // the handler's own writes to the flag, summarised by the value it leaves
        event.SetCancelled(step.cancelled);
        calls := calls + [Call(i, caller, seen, step)];
        if step.Threw? {
          r := Fail(HandlerFailed(caller));
          return;
        }
        i := i + 1;
      }
      assert handlers[i..] == [];
      r := Pass;
    }
  }
}
