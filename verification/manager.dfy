/**
 * The public event manager: a registry of handler lists keyed by event class, filled by
 * opening slots and by discovering listeners' annotated methods, and read by dispatch.
 */
module Manager {
  import opened Events
  import opened Registry
  import opened Delivery

  class EventManager {
    /** The registry: event class to handler records, in the order they are invoked. */
    var eventHandlers: Slots

    /** Every record sits in the slot of the one class its method accepts. */
    ghost predicate Valid()
      reads this
    {
      Typed(eventHandlers)
    }

    /** A manager with no slot open. */
    constructor ()
      ensures Valid() && eventHandlers == map[]
    {
      eventHandlers := map[];
    }

    /** A manager whose only slot is `eventClazz`, open and empty. */
    constructor WithTrigger(eventClazz: ClassName)
      ensures Valid() && eventHandlers == map[eventClazz := []]
    {
      eventHandlers := map[];
      new;
      AddEventTrigger(eventClazz);
    }

    /** A manager with the slots `eventClazz` and `eventClazzes` open and empty. */
    constructor WithTriggers(eventClazz: ClassName, eventClazzes: seq<ClassName>)
      ensures Valid() && eventHandlers == OpenAll(map[], [eventClazz] + eventClazzes)
    {
      eventHandlers := map[];
      new;
      AddEventTriggers(eventClazz, eventClazzes);
    }

    /**
     * Opens the slot of `eventClazz` with a fresh empty list. A slot that was already
     * open loses its handlers; the other slots are untouched.
     */
    method AddEventTrigger(eventClazz: ClassName)
      requires Valid()
      modifies this
      ensures Valid()
      ensures eventHandlers == old(eventHandlers)[eventClazz := []]
    {
      eventHandlers := eventHandlers[eventClazz := []];
    }

    /** Opens `eventClazz`, then each of `eventClazzes` in order, each as AddEventTrigger does. */
    method AddEventTriggers(eventClazz: ClassName, eventClazzes: seq<ClassName>)
      requires Valid()
      modifies this
      ensures Valid()
      ensures eventHandlers == OpenAll(old(eventHandlers), [eventClazz] + eventClazzes)
    {
      ghost var all := [eventClazz] + eventClazzes;
      AddEventTrigger(eventClazz);
      OpenOne(old(eventHandlers), eventClazz);
      assert all[..1] == [eventClazz];
      for i := 0 to |eventClazzes|
        invariant Valid()
        invariant eventHandlers == OpenAll(old(eventHandlers), all[..i + 1])
      {
        assert all[..i + 2][..i + 1] == all[..i + 1];
        AddEventTrigger(eventClazzes[i]);
      }
      assert all[..|eventClazzes| + 1] == all;
    }

    /**
     * Scans the listener's declared methods in order and appends a record for each one
     * that is annotated, takes exactly one parameter, and whose parameter class has an
     * open slot; every other method is skipped without error.
     */
    method RegisterEventListener(listener: Listener)
      requires Valid()
      modifies this
      ensures Valid()
      ensures eventHandlers == Register(old(eventHandlers), listener)
    {
      var methods := listener.methods;
      UntaggedListenerAddsNothing(old(eventHandlers), Listener(listener.id, methods[..0]));
      for i := 0 to |methods|
        invariant Valid()
        invariant eventHandlers == Register(old(eventHandlers), Listener(listener.id, methods[..i]))
      {
        var m := methods[i];
        RegisterStep(old(eventHandlers), listener.id, methods[..i], m);
        assert methods[..i + 1] == methods[..i] + [m];
        if !m.annotated {
          continue;
        }
        if |m.params| != 1 {
          continue;
        }
        if m.params[0] !in eventHandlers {
          continue;
        }
        eventHandlers := eventHandlers[m.params[0] := eventHandlers[m.params[0]] + [EventCaller(listener.id, m)]];
      }
      assert methods[..|methods|] == methods;
    }

    /** Registers `listener`, then each of `listeners` in order, each as RegisterEventListener does. */
    method RegisterEventListeners(listener: Listener, listeners: seq<Listener>)
      requires Valid()
      modifies this
      ensures Valid()
      ensures eventHandlers == RegisterAll(old(eventHandlers), [listener] + listeners)
    {
      ghost var all := [listener] + listeners;
      RegisterEventListener(listener);
      RegisterAllSnoc(old(eventHandlers), [], listener);
      assert all[..1] == [] + [listener];
      for i := 0 to |listeners|
        invariant Valid()
        invariant eventHandlers == RegisterAll(old(eventHandlers), all[..i + 1])
      {
        RegisterAllSnoc(old(eventHandlers), all[..i + 1], listeners[i]);
        assert all[..i + 2] == all[..i + 1] + [listeners[i]];
        RegisterEventListener(listeners[i]);
      }
      assert all[..|listeners| + 1] == all;
    }

    /**
     * Dispatches `event` to the slot of its exact class. `run` is what the handlers do on
     * this event. Without an open slot it fails with Unregistered before any handler runs.
     * Otherwise it invokes the slot's handlers in order on the same event, each seeing the
     * flag the previous one left, and stops at the first that throws. The registry is
     * never changed; `calls` records the invocations.
     */
    method InvokeTriggers(event: Event, run: Run) returns (r: Outcome, ghost calls: seq<Call>)
      requires Valid()
      modifies event
      ensures unchanged(this)
      ensures var d := Dispatch(eventHandlers, event.kind, run, old(event.cancelled));
        r == d.outcome && calls == d.calls && event.cancelled == d.cancelled
    {
      var clazz := event.kind;
      if clazz !in eventHandlers {
        r, calls := Fail(Unregistered(clazz)), [];
        return;
      }
      var handlers := eventHandlers[clazz];
      calls := [];
      var i := 0;
      while i < |handlers|
        invariant 0 <= i <= |handlers|
        invariant FanOut(handlers, 0, run, old(event.cancelled)) == Resume(calls, FanOut(handlers[i..], i, run, event.cancelled))
      {
        var caller := handlers[i];
        var seen := event.cancelled;
        var step := run(i, caller, seen);
        FanOutStep(handlers, i, run, seen, calls);
        // the handler's own writes to the flag, summarised by the value it leaves
        event.SetCancelled(step.cancelled);
        calls := calls + [Call(i, caller, seen, step)];
        if step.Threw? {
          r := Fail(HandlerFailed(caller));
          return;
        }
        i := i + 1;
      }
      assert handlers[i..] == [];
      r := Pass;
    }
  }

  /**
   * The greeting scenario: open GreetingEvent, register a listener with one annotated
   * handler for it that cancels the event, and dispatch a fresh GreetingEvent. The
   * handler runs exactly once, on the uncancelled event, and the producer sees it
   * cancelled.
   */
  method GreetingScenario() returns (r: Outcome, cancelled: bool, ghost calls: seq<Call>)
    ensures r == Pass && cancelled
    ensures |calls| == 1
    ensures calls[0] == Call(0, EventCaller(1, MethodDecl("onGreeting", true, ["GreetingEvent"])), false, Returned(true))
  {
    var greeting := "GreetingEvent";
    var onGreeting := MethodDecl("onGreeting", true, [greeting]);
    var listener := Listener(1, [onGreeting]);
    var manager := new EventManager.WithTrigger(greeting);
    manager.RegisterEventListener(listener);
    RegisterSlot(map[greeting := []], listener, greeting);
    MatchingOne(1, onGreeting, greeting);
    assert manager.eventHandlers[greeting] == [EventCaller(1, onGreeting)];
    var event := new Event(greeting);
    var run: Run := (at, c, f) => Returned(true);
    var slot := [EventCaller(1, onGreeting)];
    assert slot[1..] == [] && FanOut(slot[1..], 1, run, true) == Delivery([], Pass, true);
    assert Dispatch(manager.eventHandlers, greeting, run, false) ==
      Delivery([Call(0, EventCaller(1, onGreeting), false, Returned(true))], Pass, true);
    r, calls := manager.InvokeTriggers(event, run);
    cancelled := event.IsCancelled();
  }
}
