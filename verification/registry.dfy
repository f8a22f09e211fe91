/**
 * The handler registry as a value: a map from an event class to the ordered handler
 * records for it, and the two ways it changes (opening slots and discovering the
 * handlers of a listener). Both EventManager classes are proved against these functions.
 */
module Registry {
  import opened Events

  /** The identity of a listener object (the registry keeps a reference, never a copy). */
  type ListenerId = nat

  /**
   * What discovery sees of one method declared by a listener's class: its name, whether
   * it carries the EventHandler annotation, and its declared parameter types.
   */
  datatype MethodDecl = MethodDecl(name: string, annotated: bool, params: seq<ClassName>)

  /** A listener object: its identity and its declared methods, in the order they are scanned. */
  datatype Listener = Listener(id: ListenerId, methods: seq<MethodDecl>)

  /** A handler record: the listener instance and the method to invoke on it. */
  datatype EventCaller = EventCaller(caller: ListenerId, handler: MethodDecl)

  /** The registry: a key is present exactly when its slot has been opened. */
  type Slots = map<ClassName, seq<EventCaller>>

  /** The lifecycle of one slot. */
  datatype SlotState = Unopened | Open | OpenWithHandlers

  function StateOf(slots: Slots, k: ClassName): SlotState
  {
    if k !in slots then Unopened
    else if slots[k] == [] then Open
    else OpenWithHandlers
  }

  /** `m` is an annotated one-parameter method whose parameter type is exactly `k`. */
  predicate HandlesExactly(m: MethodDecl, k: ClassName)
  {
    m.annotated && |m.params| == 1 && m.params[0] == k
  }

  /** The three tests discovery applies, in order: annotation, arity, open slot for the parameter type. */
  predicate Eligible(m: MethodDecl, open: set<ClassName>)
  {
    m.annotated && |m.params| == 1 && m.params[0] in open
  }

  /** Every record in slot `k` is a method that handles exactly `k`. */
  ghost predicate Typed(slots: Slots)
  {
    forall k, c :: k in slots && c in slots[k] ==> HandlesExactly(c.handler, k)
  }

  // ---------------------------------------------------------------------------
  // Opening slots

  /**
   * Opens each key of `ks` in turn. Opening puts a fresh empty list under the key, so
   * a key that was already open loses its handlers; every other key keeps its list.
   */
  function OpenAll(slots: Slots, ks: seq<ClassName>): (r: Slots)
    ensures r.Keys == slots.Keys + set k | k in ks
    ensures forall k :: k in ks ==> r[k] == []
    ensures forall k :: k in slots && k !in ks ==> r[k] == slots[k]
    ensures Typed(slots) ==> Typed(r)
    decreases |ks|
  {
    if ks == [] then slots
    else
      var prev := OpenAll(slots, ks[..|ks| - 1]);
      assert forall k :: k in ks <==> k in ks[..|ks| - 1] || k == ks[|ks| - 1];
      prev[ks[|ks| - 1] := []]
  }

  /** Opening one key is a plain map update to the empty list. */
  lemma OpenOne(slots: Slots, k: ClassName)
    ensures OpenAll(slots, [k]) == slots[k := []]
  {
    assert [k][..0] == [];
  }

  /** Opening `a` and then `b` is opening `a + b`. */
  lemma {:induction false} OpenAllAppend(slots: Slots, a: seq<ClassName>, b: seq<ClassName>)
    ensures OpenAll(OpenAll(slots, a), b) == OpenAll(slots, a + b)
    decreases |b|
  {
    if b == [] {
      assert a + b == a;
    } else {
      assert (a + b)[..|a + b| - 1] == a + b[..|b| - 1];
      OpenAllAppend(slots, a, b[..|b| - 1]);
    }
  }

  /**
   * Re-opening a slot that holds handlers drops them: opening is a reset, not an
   * idempotent no-op.
   */
  lemma ReopenResets(slots: Slots, k: ClassName)
    requires StateOf(slots, k) == OpenWithHandlers
    ensures StateOf(OpenAll(slots, [k]), k) == Open
    ensures OpenAll(slots, [k]) != slots
  {
    OpenOne(slots, k);
    assert OpenAll(slots, [k])[k] != slots[k];
  }

  // ---------------------------------------------------------------------------
  // Discovery

  /**
   * The records discovery appends to slot `k` when scanning `ms` for listener `owner`,
   * in declared order.
   */
  function Matching(owner: ListenerId, ms: seq<MethodDecl>, k: ClassName): (r: seq<EventCaller>)
    ensures |r| <= |ms|
    ensures forall c :: c in r ==> c.caller == owner && c.handler in ms && HandlesExactly(c.handler, k)
    decreases |ms|
  {
    if ms == [] then []
    else
      var last := ms[|ms| - 1];
      Matching(owner, ms[..|ms| - 1], k) + (if HandlesExactly(last, k) then [EventCaller(owner, last)] else [])
  }

  /** A single method contributes its record to slot `k` exactly when it handles `k`. */
  lemma MatchingOne(owner: ListenerId, m: MethodDecl, k: ClassName)
    ensures Matching(owner, [m], k) == if HandlesExactly(m, k) then [EventCaller(owner, m)] else []
  {
    assert [m][..0] == [];
  }

  /** Discovery respects declared order: scanning `a + b` finds `a`'s records, then `b`'s. */
  lemma {:induction false} MatchingAppend(owner: ListenerId, a: seq<MethodDecl>, b: seq<MethodDecl>, k: ClassName)
    ensures Matching(owner, a + b, k) == Matching(owner, a, k) + Matching(owner, b, k)
    decreases |b|
  {
    if b == [] {
      assert a + b == a;
    } else {
      assert (a + b)[..|a + b| - 1] == a + b[..|b| - 1];
      MatchingAppend(owner, a, b[..|b| - 1], k);
    }
  }

  /**
   * Registers one listener: every open slot gets, after its existing records, the
   * records of the listener's methods that handle exactly that slot's class.
   */
  function Register(slots: Slots, l: Listener): (r: Slots)
    ensures r.Keys == slots.Keys
    ensures forall k :: k in slots ==> slots[k] <= r[k]
    ensures Typed(slots) ==> Typed(r)
  {
    map k | k in slots :: slots[k] + Matching(l.id, l.methods, k)
  }

  /**
   * Registration adds only the listener's own handlers: every record appended to slot
   * `k` names the listener, is one of its declared methods, and handles exactly `k`.
   */
  lemma RegisterAddsOnlyListenerHandlers(slots: Slots, l: Listener, k: ClassName, c: EventCaller)
    requires k in slots && c in Register(slots, l)[k][|slots[k]|..]
    ensures c.caller == l.id && c.handler in l.methods && HandlesExactly(c.handler, k)
  {
    assert Register(slots, l)[k][|slots[k]|..] == Matching(l.id, l.methods, k);
  }

  /** Every declared method that handles exactly `k` is found for `k`. */
  lemma {:induction false} MatchingComplete(owner: ListenerId, ms: seq<MethodDecl>, k: ClassName, i: nat)
    requires i < |ms| && HandlesExactly(ms[i], k)
    ensures EventCaller(owner, ms[i]) in Matching(owner, ms, k)
  {
    assert ms == ms[..i] + [ms[i]] + ms[i + 1..];
    MatchingAppend(owner, ms[..i] + [ms[i]], ms[i + 1..], k);
    MatchingAppend(owner, ms[..i], [ms[i]], k);
    MatchingOne(owner, ms[i], k);
  }

  /**
   * Registration misses no handler: every declared method that is annotated and takes
   * exactly the class of an open slot ends up in that slot, named with the listener.
   */
  lemma RegisterComplete(slots: Slots, l: Listener, k: ClassName, i: nat)
    requires k in slots && i < |l.methods| && HandlesExactly(l.methods[i], k)
    ensures EventCaller(l.id, l.methods[i]) in Register(slots, l)[k]
  {
    MatchingComplete(l.id, l.methods, k, i);
  }

  /** Unfolding of Register at an open slot (a proof step, not a property of the source). */
  lemma RegisterSlot(slots: Slots, l: Listener, k: ClassName)
    requires k in slots
    ensures Register(slots, l)[k] == slots[k] + Matching(l.id, l.methods, k)
  {
  }

  /** The slot-by-slot effect of scanning one more method `m` after the methods `ms`. */
  lemma RegisterStepAt(slots: Slots, owner: ListenerId, ms: seq<MethodDecl>, m: MethodDecl, k: ClassName)
    requires k in slots
    ensures Register(slots, Listener(owner, ms + [m]))[k] ==
      Register(slots, Listener(owner, ms))[k] + (if HandlesExactly(m, k) then [EventCaller(owner, m)] else [])
  {
    MatchingAppend(owner, ms, [m], k);
    MatchingOne(owner, m, k);
  }

  /**
   * One step of the scan: after the methods `ms`, the next method `m` is appended to the
   * slot of its parameter type when it is eligible; otherwise nothing changes.
   */
  lemma RegisterStep(slots: Slots, owner: ListenerId, ms: seq<MethodDecl>, m: MethodDecl)
    ensures var cur := Register(slots, Listener(owner, ms));
      Register(slots, Listener(owner, ms + [m])) ==
        if Eligible(m, cur.Keys) then cur[m.params[0] := cur[m.params[0]] + [EventCaller(owner, m)]]
        else cur
  {
    var cur := Register(slots, Listener(owner, ms));
    var next := Register(slots, Listener(owner, ms + [m]));
    if Eligible(m, cur.Keys) {
      var p := m.params[0];
      var expected := cur[p := cur[p] + [EventCaller(owner, m)]];
      forall k | k in slots ensures next[k] == expected[k] {
        RegisterStepAt(slots, owner, ms, m, k);
      }
      assert next.Keys == expected.Keys;
      assert next == expected;
    } else {
      forall k | k in slots ensures next[k] == cur[k] {
        RegisterStepAt(slots, owner, ms, m, k);
      }
      assert next.Keys == cur.Keys;
      assert next == cur;
    }
  }

  /** Methods without the annotation contribute no record to any slot. */
  lemma {:induction false} MatchingUntagged(owner: ListenerId, ms: seq<MethodDecl>, k: ClassName)
    requires forall m :: m in ms ==> !m.annotated
    ensures Matching(owner, ms, k) == []
    decreases |ms|
  {
    if ms != [] {
      MatchingUntagged(owner, ms[..|ms| - 1], k);
    }
  }

  /** A listener none of whose methods carries the annotation changes nothing. */
  lemma UntaggedListenerAddsNothing(slots: Slots, l: Listener)
    requires forall m :: m in l.methods ==> !m.annotated
    ensures Register(slots, l) == slots
  {
    var r := Register(slots, l);
    forall k | k in slots ensures r[k] == slots[k] {
      MatchingUntagged(l.id, l.methods, k);
    }
    assert r.Keys == slots.Keys;
  }

  /** A handler whose parameter class has no open slot is skipped, and no error is raised. */
  lemma UnopenedHandlerSkipped(slots: Slots, owner: ListenerId, m: MethodDecl)
    requires m.annotated && |m.params| == 1 && m.params[0] !in slots
    ensures Register(slots, Listener(owner, [m])) == slots
  {
    var r := Register(slots, Listener(owner, [m]));
    forall k | k in slots ensures r[k] == slots[k] {
      MatchingOne(owner, m, k);
    }
    assert r.Keys == slots.Keys;
  }

  /**
   * Registers the listeners one after another, in the given order. RegisterAllSlot and
   * RegisterAllKeepsPrefix state what each slot ends up holding.
   */
  function RegisterAll(slots: Slots, ls: seq<Listener>): (r: Slots)
    ensures r.Keys == slots.Keys
    ensures Typed(slots) ==> Typed(r)
    decreases |ls|
  {
    if ls == [] then slots
    else Register(RegisterAll(slots, ls[..|ls| - 1]), ls[|ls| - 1])
  }

  /** Unfolding of RegisterAll at its last listener (a proof step). */
  lemma RegisterAllSnoc(slots: Slots, ls: seq<Listener>, l: Listener)
    ensures RegisterAll(slots, ls + [l]) == Register(RegisterAll(slots, ls), l)
  {
    assert (ls + [l])[..|ls|] == ls;
  }

  /** The records that discovery over the listeners `ls` finds for class `k`, listener by listener. */
  function Discovered(ls: seq<Listener>, k: ClassName): seq<EventCaller>
    decreases |ls|
  {
    if ls == [] then []
    else Discovered(ls[..|ls| - 1], k) + Matching(ls[|ls| - 1].id, ls[|ls| - 1].methods, k)
  }

  /**
   * First-in first-out across registrations: each open slot ends up holding its old
   * records, then those of the first listener, then those of the second, and so on.
   */
  lemma {:induction false} RegisterAllSlot(slots: Slots, ls: seq<Listener>, k: ClassName)
    requires k in slots
    ensures RegisterAll(slots, ls)[k] == slots[k] + Discovered(ls, k)
    decreases |ls|
  {
    if ls != [] {
      RegisterAllSlot(slots, ls[..|ls| - 1], k);
    }
  }

  /** Registration keeps each slot's old records as a prefix of its new list. */
  lemma RegisterAllKeepsPrefix(slots: Slots, ls: seq<Listener>, k: ClassName)
    requires k in slots
    ensures slots[k] <= RegisterAll(slots, ls)[k]
  {
    RegisterAllSlot(slots, ls, k);
  }

  /** Registering `a` and then `b` is registering `a + b`. */
  lemma {:induction false} RegisterAllAppend(slots: Slots, a: seq<Listener>, b: seq<Listener>)
    ensures RegisterAll(RegisterAll(slots, a), b) == RegisterAll(slots, a + b)
    decreases |b|
  {
    if b == [] {
      assert a + b == a;
    } else {
      assert (a + b)[..|a + b| - 1] == a + b[..|b| - 1];
      RegisterAllAppend(slots, a, b[..|b| - 1]);
    }
  }

  /**
   * Registration moves no slot into or out of Unopened, and never empties a slot that
   * holds handlers.
   */
  lemma RegisterAllKeepsLifecycle(slots: Slots, ls: seq<Listener>, k: ClassName)
    ensures StateOf(RegisterAll(slots, ls), k) == Unopened <==> StateOf(slots, k) == Unopened
    ensures StateOf(slots, k) == OpenWithHandlers ==> StateOf(RegisterAll(slots, ls), k) == OpenWithHandlers
  {
    if k in slots {
      RegisterAllSlot(slots, ls, k);
    }
  }
}
