# Type-indexed event dispatcher, modelled in Dafny

This project models the core of a small Java publish/subscribe library. An
`EventManager` keeps a registry. The registry maps an event class to an ordered
list of handler records, where each record is a listener instance and a method.

- **Opening a slot.** `addEventTrigger` opens the slot for an event class, and
  `addEventTriggers` opens several slots in turn. Opening puts a fresh empty list
  under the key, so re-opening a slot drops the handlers it held.
- **Discovery.** `registerEventListener` scans a listener's declared methods. It
  appends a record for every method that has the `EventHandler` annotation, takes
  exactly one parameter, and whose parameter class already has an open slot. All
  other methods are skipped without error. `registerEventListeners` does this for
  several listeners in turn.
- **Dispatch.** `invokeTriggers` looks up the slot for the event's exact runtime
  class. When no slot is open for it, it throws before any handler runs. Otherwise
  it invokes the slot's handlers in list order, all on the same event object. The
  first handler that throws aborts the rest.
- **Cancellation.** Handlers can set the event's `cancelled` flag. The manager never
  reads it; the producer does, after dispatch.

The repository holds two versions of the manager, and both are modelled. The
current public class is `src/me/corxl/EventSystem/EventManager.java`. The older
abstract class is `src/EventSystem/EventManager.java`, whose `addEventTriggers`
accepts zero or more classes.

Layout:

- `events.dfy`, module `Events`: the `Event` class, with its runtime class `kind`
  and its mutable `cancelled` flag.
- `registry.dfy`, module `Registry`: the registry as a value. `OpenAll` opens
  slots, `Matching` and `Register` describe discovery for one listener, and
  `RegisterAll` describes discovery for several. It also defines the typing
  invariant `Typed`: every record sits in the slot of the one class its method
  accepts.
- `delivery.dfy`, module `Delivery`: dispatch as a value. `FanOut` runs a list of
  handlers with fail-fast behaviour. `Dispatch` adds the lookup of the slot, and
  `DispatchBehaviour` states what a dispatch on an open slot does.
- `manager.dfy`, module `Manager`: the current `EventManager` class. The registry
  is a `map` field that the methods reassign. The batch methods, discovery and
  dispatch are loops, each proved against the functions above.
- `legacy_manager.dfy`, module `LegacyManager`: the older `EventManager` class,
  proved against the same functions.

Abstractions:

- **Reflection.** A listener is `Listener(id, methods)`. Each method is a
  `MethodDecl` holding its name, its annotation flag and its declared parameter
  classes. The methods are scanned in the order given.
- **Handler bodies.** They are the parameter `run: (int, EventCaller, bool) -> Step`.
  Given the position of the invocation in the slot's list (counting from 0), the
  handler record there and the flag as that handler finds it, `run` says whether
  the handler returns or throws, and what flag it leaves. The position keeps the
  invocations apart when one record sits in a slot twice (the same listener
  registered twice), so a stateful handler may return the first time and throw
  the second. The dispatch
  loop applies that flag with `Event.SetCancelled`. This is sound because setting
  the flag to its current value changes nothing.
- **Exceptions.** `InvokeTriggers` returns an `Outcome`. `Fail(Unregistered(kind))`
  stands for the unregistered-class `RuntimeException`.
  `Fail(HandlerFailed(caller))` stands for a wrapped `IllegalAccessException` or
  `InvocationTargetException`, and names the handler that threw.
- **Invocation log.** `InvokeTriggers` also returns a ghost log, `calls`. It lists
  the handlers that ran, in order, with the flag each one found and what it did.

Re-opening a slot replaces its list with an empty one
(`src/me/corxl/EventSystem/EventManager.java:46`,
`src/EventSystem/EventManager.java:14`), so the handlers it held are lost;
`Registry.ReopenResets` proves this.

## Model

| member | source | states |
|---|---|---|
| `Events.Event.constructor` | src/me/corxl/EventSystem/Event.java:4 | a fresh event is not cancelled |
| `Events.Event.SetCancelled` | src/me/corxl/EventSystem/Event.java:5-7 | afterwards the flag is exactly the argument, whatever it was |
| `Events.Event.IsCancelled` | src/me/corxl/EventSystem/Event.java:8-10 | returns the flag and modifies nothing |
| `Events.SetCancelledTwice` | src/me/corxl/EventSystem/Event.java:5-7 | setting the same value twice leaves the state one call leaves |
| `Registry.OpenAll` | src/me/corxl/EventSystem/EventManager.java:58-63 | the keys become the old keys plus the opened ones; every opened key maps to the empty list, even one that held handlers; every other key keeps its list; typing is preserved |
| `Registry.OpenOne` | src/me/corxl/EventSystem/EventManager.java:45-47 | opening one class is the map update of that key to the empty list |
| `Registry.OpenAllAppend` | src/me/corxl/EventSystem/EventManager.java:58-63 | opening one batch after another is opening their concatenation |
| `Registry.ReopenResets` | src/me/corxl/EventSystem/EventManager.java:45-47 | re-opening a slot that holds handlers empties it, so the registry changes: opening is not idempotent |
| `Registry.Matching` | src/me/corxl/EventSystem/EventManager.java:76-80 | every record found for slot `k` belongs to the listener, is one of its declared methods, and is annotated with exactly one parameter of class `k` |
| `Registry.MatchingOne` | src/me/corxl/EventSystem/EventManager.java:77-80 | one method yields its record for `k` exactly when it is annotated, has one parameter, and that parameter is `k` |
| `Registry.MatchingAppend` | src/me/corxl/EventSystem/EventManager.java:76-81 | the records are found in declared-method order: scanning `a + b` finds `a`'s records, then `b`'s |
| `Registry.MatchingUntagged` | src/me/corxl/EventSystem/EventManager.java:77 | methods without the annotation yield no record |
| `Registry.Register` | src/me/corxl/EventSystem/EventManager.java:73-82 | the key set is unchanged; each old list is a prefix of its new list; typing is preserved |
| `Registry.RegisterAddsOnlyListenerHandlers` | src/me/corxl/EventSystem/EventManager.java:77-80 | every record appended to slot `k` names the listener, is one of its declared methods, and handles exactly `k` |
| `Registry.MatchingComplete` | src/me/corxl/EventSystem/EventManager.java:76-80 | every declared method that is annotated and takes exactly one parameter of class `k` is found for `k`, named with the listener |
| `Registry.RegisterComplete` | src/me/corxl/EventSystem/EventManager.java:76-80 | no eligible handler is missed: every declared method that handles exactly the class of an open slot ends up in that slot; with `RegisterAddsOnlyListenerHandlers` this is both directions of "appended exactly when eligible" |
| `Registry.RegisterStepAt` | src/me/corxl/EventSystem/EventManager.java:76-81 | scanning one more method adds its record to slot `k` exactly when it handles `k` |
| `Registry.RegisterStep` | src/me/corxl/EventSystem/EventManager.java:76-81 | one loop iteration: an eligible method is appended to the slot of its parameter class; any other method leaves the registry unchanged |
| `Registry.UntaggedListenerAddsNothing` | src/me/corxl/EventSystem/EventManager.java:77 | a listener with no annotated method leaves the registry unchanged |
| `Registry.UnopenedHandlerSkipped` | src/me/corxl/EventSystem/EventManager.java:79 | an annotated handler whose parameter class has no open slot is skipped without error |
| `Registry.RegisterAll` | src/me/corxl/EventSystem/EventManager.java:92-97 | registering several listeners keeps the key set and preserves typing |
| `Registry.RegisterAllSlot` | src/me/corxl/EventSystem/EventManager.java:92-97 | first in, first out: a slot holds its old records, then the first listener's, then the second's, and so on |
| `Registry.RegisterAllKeepsPrefix` | src/me/corxl/EventSystem/EventManager.java:92-97 | every old list stays a prefix of the slot's new list |
| `Registry.RegisterAllAppend` | src/me/corxl/EventSystem/EventManager.java:92-97 | registering one group of listeners after another is registering their concatenation |
| `Registry.RegisterAllKeepsLifecycle` | src/me/corxl/EventSystem/EventManager.java:79-80 | registration never opens or closes a slot, and never empties a slot that holds handlers |
| `Delivery.FanOut` | src/me/corxl/EventSystem/EventManager.java:109-116 | the number of handlers run is at most the list length |
| `Delivery.FanOutOrder` | src/me/corxl/EventSystem/EventManager.java:109 | the handlers run are a prefix of the list, in list order, and the i-th invocation is at position `at + i` |
| `Delivery.FanOutChained` | src/me/corxl/EventSystem/EventManager.java:109-112 | every handler acts on the same event: each finds the flag its predecessor left, every handler before the last returned, and the final flag is the one the last handler left |
| `Delivery.FanOutOutcome` | src/me/corxl/EventSystem/EventManager.java:109-116 | success means every handler ran and returned; failure means the last handler run threw, and the error names it |
| `Delivery.FanOutAppend` | src/me/corxl/EventSystem/EventManager.java:109-116 | dispatching over `a + b` runs `a` first and reaches `b` only when every handler of `a` returned, with the flag `a` left and at the positions after `a`'s |
| `Delivery.SecondInvocationMayThrow` | src/me/corxl/EventSystem/EventManager.java:109-114 | a record that sits in a slot twice is invoked twice, and a handler that returns the first time and throws the second time fails the dispatch after both invocations |
| `Delivery.FanOutStopsAtFailure` | src/me/corxl/EventSystem/EventManager.java:113-114 | when handler `k` throws, no later handler runs, and the dispatch fails naming handler `k` |
| `Delivery.Dispatch` | src/me/corxl/EventSystem/EventManager.java:104-108 | the outcome is Unregistered exactly when no slot is open for the class, and then nothing runs and the flag is untouched |
| `Delivery.DispatchBehaviour` | src/me/corxl/EventSystem/EventManager.java:109-116 | on an open slot, a prefix of the slot's handlers runs in list order at positions 0, 1, …, chained on the one event; the call succeeds only when all of them ran and returned, and fails naming the last handler run when that one threw |
| `Delivery.DispatchEmptySlot` | src/me/corxl/EventSystem/EventManager.java:106-109 | an open, empty slot dispatches successfully and runs nothing |
| `Delivery.DispatchAllReturn` | src/me/corxl/EventSystem/EventManager.java:109-116 | when every handler returns, the whole slot runs once, in order, and the call succeeds |
| `Delivery.DispatchTyped` | src/me/corxl/EventSystem/EventManager.java:105-109 | routing is by exact class: in a typed registry every handler run declares exactly the event's class |
| `Manager.EventManager.constructor` | src/me/corxl/EventSystem/EventManager.java:22 | the default constructor opens no slot |
| `Manager.EventManager.WithTrigger` | src/me/corxl/EventSystem/EventManager.java:28-30 | the only key is the given class, and it maps to an empty list |
| `Manager.EventManager.WithTriggers` | src/me/corxl/EventSystem/EventManager.java:36-39 | the registry is the empty one with the given classes opened in order |
| `Manager.EventManager.AddEventTrigger` | src/me/corxl/EventSystem/EventManager.java:45-47 | the class maps to the empty list, discarding earlier handlers; every other key is unchanged |
| `Manager.EventManager.AddEventTriggers` | src/me/corxl/EventSystem/EventManager.java:58-63 | the loop gives the same registry as opening the first class, then each of the rest in order |
| `Manager.EventManager.RegisterEventListener` | src/me/corxl/EventSystem/EventManager.java:73-82 | the filtering loop gives exactly `Register` of the old registry and the listener |
| `Manager.EventManager.RegisterEventListeners` | src/me/corxl/EventSystem/EventManager.java:92-97 | the loop gives exactly `RegisterAll` of the first listener followed by the rest |
| `Manager.EventManager.InvokeTriggers` | src/me/corxl/EventSystem/EventManager.java:104-117 | the outcome, the final flag and the log of invocations are exactly those of `Dispatch` on the unchanged registry |
| `Manager.GreetingScenario` | src/me/corxl/Example/Main.java:8-22 | open a class, register a listener with one handler for it that cancels, dispatch: the handler is invoked exactly once, at position 0, on the uncancelled event; the call succeeds and the producer sees the event cancelled |
| `LegacyManager.EventManager.constructor` | src/EventSystem/EventManager.java:10-12 | the constructor opens no slot |
| `LegacyManager.EventManager.AddEventTrigger` | src/EventSystem/EventManager.java:13-15 | the class maps to the empty list, discarding earlier handlers; every other key is unchanged |
| `LegacyManager.EventManager.AddEventTriggers` | src/EventSystem/EventManager.java:17-22 | each class is opened in order, reset to empty; with no classes the registry is unchanged |
| `LegacyManager.EventManager.RegisterEvents` | src/EventSystem/EventManager.java:24-33 | the filtering loop gives exactly `Register` of the old registry and the listener |
| `LegacyManager.EventManager.InvokeTriggers` | src/EventSystem/EventManager.java:35-48 | the outcome, the final flag and the log of invocations are exactly those of `Dispatch` on the unchanged registry |

## Left out

- Reflection is not modelled: `getDeclaredMethods`, `getAnnotation`, `getParameterTypes` and `Method.invoke`. A listener is given as its list of method descriptors, in the order the JVM would return them. That order is unspecified in Java; the model takes the given order.
- Handler bodies, and the listener state they change, are left out. `run` summarises each invocation as returning or throwing plus the flag it leaves. A handler that writes the flag several times is summarised by the last value it writes.
- The text of exception messages is left out. So is the wrapping of `IllegalAccessException` and `InvocationTargetException` in `RuntimeException`. Both are represented by `HandlerFailed`, which names the failing handler but not the cause.
- A handler that changes the registry during dispatch is not modelled, because `run` cannot touch the registry. In Java, a handler that re-opens the slot being dispatched puts a new list in the map (`src/me/corxl/EventSystem/EventManager.java:46`). The ongoing `forEach` keeps walking the old list, so the remaining handlers still run and the slot is empty afterwards. A handler that registers a listener with a handler for the class being dispatched appends to the list being walked (`:80`), and the `LinkedList` iterator then throws `ConcurrentModificationException`.
- A `null` class or a `null` listener passed to the manager is not modelled. Class names are plain strings.
- `HashMap` and `LinkedList` internals are not modelled. The registry is a Dafny `map` to `seq`.
- Thread safety is out of scope. The Java code takes no locks; concurrency is the caller's concern.
- `src/EventSystem/Event.java`, `EventHandler` and `Listener` are not part of this model. The legacy manager reuses `Events.Event`. The annotation is a flag on `MethodDecl`, and a listener is an opaque `ListenerId`.
- `src/me/corxl/Example/ExampleEvent.java` and `ExampleListener.java` are demo code, including console output. `Manager.GreetingScenario` stands in for the wiring in `Main.java`.
- `LegacyManager.EventManager`: the Java class is `abstract`, and its constructor, `addEventTrigger` and `addEventTriggers` are `protected` (`src/EventSystem/EventManager.java:8,10,13,18`). The model makes the class concrete and these members public, so the subclass that would expose them is not modelled.
- `Registry.RegisterAll`: its own contract states only the key set and the typing. Its lists are described by `RegisterAllSlot` and `RegisterAllKeepsPrefix`.
- `Delivery.FanOut`: its own contract only bounds the number of handlers run. The rest of what it means is stated by `FanOutOrder`, `FanOutChained` and `FanOutOutcome`.
- `Delivery.Dispatch`: its own contract states only the unregistered case. What a dispatch on an open slot does is stated by `DispatchBehaviour`.
