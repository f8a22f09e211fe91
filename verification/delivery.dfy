/**
 * Dispatch as a value: which handlers a call to invokeTriggers runs, what each of them
 * sees of the cancellation flag, and how the call ends. Both EventManager classes are
 * proved against `Dispatch`.
 */
module Delivery {
  import opened Events
  import opened Registry

  /**
   * What one handler invocation does, as far as the dispatcher can tell: it returns or
   * throws, and either way leaves the event's cancellation flag at `cancelled`.
   */
  datatype Step = Returned(cancelled: bool) | Threw(cancelled: bool)

  /**
   * The behaviour of the handlers on the event being dispatched: given the position of
   * the invocation in the slot's list, the handler record there and the flag as the
   * handler finds it, what the invocation does. The position keeps apart two invocations
   * of one record that sits in a slot twice, so a handler may act differently each time.
   */
  type Run = (int, EventCaller, bool) -> Step

  /** One invocation: its position in the slot, the handler, the flag it found, and what it did. */
  datatype Call = Call(at: int, caller: EventCaller, seen: bool, step: Step)

  /** The two ways invokeTriggers fails. */
  datatype DispatchError =
    | Unregistered(kind: ClassName)        // no slot is open for the event's class
    | HandlerFailed(failed: EventCaller)   // this handler threw; the rest were skipped

  datatype Outcome = Pass | Fail(error: DispatchError)

  /** The full record of one dispatch: the invocations in order, the outcome, and the final flag. */
  datatype Delivery = Delivery(calls: seq<Call>, outcome: Outcome, cancelled: bool)

  /** The flag after the chained calls: what the last one left, or `flag` when there were none. */
  function FlagAfter(calls: seq<Call>, flag: bool): bool
  {
    if calls == [] then flag else calls[|calls| - 1].step.cancelled
  }

  /**
   * The invocations are chained on one event: each handler's step is what `run` gives
   * for it, the first sees `flag`, each later one sees the flag its predecessor left,
   * and every handler but possibly the last returned normally.
   */
  predicate Chained(calls: seq<Call>, run: Run, flag: bool)
  {
    && (forall j :: 0 <= j < |calls| ==> calls[j].step == run(calls[j].at, calls[j].caller, calls[j].seen))
    && (|calls| > 0 ==> calls[0].seen == flag)
    && (forall j :: 0 < j < |calls| ==> calls[j].seen == calls[j - 1].step.cancelled)
    && (forall j :: 0 <= j < |calls| - 1 ==> calls[j].step.Returned?)
  }

  /**
   * Runs the handlers `hs`, which sit in the slot from position `at` on, in list order
   * on one event whose flag starts at `flag`, stopping at the first one that throws.
   * FanOutOrder, FanOutChained and FanOutOutcome state what it means.
   */
  function FanOut(hs: seq<EventCaller>, at: int, run: Run, flag: bool): (d: Delivery)
    ensures |d.calls| <= |hs|
    decreases |hs|
  {
    if hs == [] then Delivery([], Pass, flag)
    else
      var s := run(at, hs[0], flag);
      var first := Call(at, hs[0], flag, s);
      match s
      case Threw(f) => Delivery([first], Fail(HandlerFailed(hs[0])), f)
      case Returned(f) =>
        var rest := FanOut(hs[1..], at + 1, run, f);
        Delivery([first] + rest.calls, rest.outcome, rest.cancelled)
  }

  /** The invocations `calls` are of a prefix of `hs`, one each, in list order, from position `at` on. */
  predicate InOrder(calls: seq<Call>, hs: seq<EventCaller>, at: int)
  {
    && |calls| <= |hs|
    && forall j :: 0 <= j < |calls| ==> calls[j].at == at + j && calls[j].caller == hs[j]
  }

  /** The handlers run are a prefix of the list, in list order, each at most once. */
  lemma {:induction false} FanOutOrder(hs: seq<EventCaller>, at: int, run: Run, flag: bool)
    ensures InOrder(FanOut(hs, at, run, flag).calls, hs, at)
    decreases |hs|
  {
    if hs != [] && run(at, hs[0], flag).Returned? {
      var f := run(at, hs[0], flag).cancelled;
      var rest := FanOut(hs[1..], at + 1, run, f);
      FanOutOrder(hs[1..], at + 1, run, f);
      var d := FanOut(hs, at, run, flag);
      forall j | 0 < j < |d.calls| ensures d.calls[j].at == at + j && d.calls[j].caller == hs[j] {
        assert d.calls[j] == rest.calls[j - 1];
      }
    }
  }

  /**
   * All handlers act on the same event in turn: each finds the flag its predecessor
   * left, and the flag after dispatch is the one the last handler left.
   */
  lemma {:induction false} FanOutChained(hs: seq<EventCaller>, at: int, run: Run, flag: bool)
    ensures var d := FanOut(hs, at, run, flag);
      Chained(d.calls, run, flag) && d.cancelled == FlagAfter(d.calls, flag)
    decreases |hs|
  {
    if hs != [] && run(at, hs[0], flag).Returned? {
      var f := run(at, hs[0], flag).cancelled;
      var rest := FanOut(hs[1..], at + 1, run, f);
      FanOutChained(hs[1..], at + 1, run, f);
      var d := FanOut(hs, at, run, flag);
      assert forall j :: 0 < j < |d.calls| ==> d.calls[j] == rest.calls[j - 1];
    }
  }

  /**
   * A dispatch succeeds exactly when every handler ran and returned; it fails exactly
   * when the last handler that ran threw, and then it names that handler.
   */
  lemma {:induction false} FanOutOutcome(hs: seq<EventCaller>, at: int, run: Run, flag: bool)
    ensures var d := FanOut(hs, at, run, flag);
      d.outcome.Pass? ==> |d.calls| == |hs| && forall j :: 0 <= j < |d.calls| ==> d.calls[j].step.Returned?
    ensures var d := FanOut(hs, at, run, flag);
      d.outcome.Fail? ==>
        && d.calls != []
        && d.calls[|d.calls| - 1].step.Threw?
        && d.outcome == Fail(HandlerFailed(d.calls[|d.calls| - 1].caller))
    decreases |hs|
  {
    if hs != [] && run(at, hs[0], flag).Returned? {
      var f := run(at, hs[0], flag).cancelled;
      var rest := FanOut(hs[1..], at + 1, run, f);
      FanOutOutcome(hs[1..], at + 1, run, f);
      var d := FanOut(hs, at, run, flag);
      assert forall j :: 0 < j < |d.calls| ==> d.calls[j] == rest.calls[j - 1];
    }
  }

  /** `d` continued after the invocations `log` that already happened. */
  function Resume(log: seq<Call>, d: Delivery): Delivery
  {
    Delivery(log + d.calls, d.outcome, d.cancelled)
  }

  /**
   * One step of the dispatch loop (a proof step): after the invocations `log`, running
   * handler `i` either ends the dispatch, when it throws, or extends the log by its call.
   */
  lemma FanOutStep(hs: seq<EventCaller>, i: nat, run: Run, flag: bool, log: seq<Call>)
    requires i < |hs|
    ensures var s := run(i, hs[i], flag);
      var log' := log + [Call(i, hs[i], flag, s)];
      Resume(log, FanOut(hs[i..], i, run, flag)) ==
        if s.Threw? then Delivery(log', Fail(HandlerFailed(hs[i])), s.cancelled)
        else Resume(log', FanOut(hs[i + 1..], i + 1, run, s.cancelled))
  {
    assert hs[i..][0] == hs[i] && hs[i..][1..] == hs[i + 1..];
    var s := run(i, hs[i], flag);
    if s.Returned? {
      var rest := FanOut(hs[i + 1..], i + 1, run, s.cancelled);
      assert log + ([Call(i, hs[i], flag, s)] + rest.calls) == log + [Call(i, hs[i], flag, s)] + rest.calls;
    }
  }

  /**
   * Handlers added to a slot run after the ones already there: fanning out over `a + b`
   * is fanning out over `a` and, when every handler of `a` returned, continuing over `b`,
   * whose handlers sit after those of `a`, with the flag `a` left.
   */
  lemma {:induction false} FanOutAppend(a: seq<EventCaller>, b: seq<EventCaller>, at: int, run: Run, flag: bool)
    ensures var da := FanOut(a, at, run, flag);
      FanOut(a + b, at, run, flag) ==
        if da.outcome.Fail? then da else Resume(da.calls, FanOut(b, at + |a|, run, da.cancelled))
    decreases |a|
  {
    if a == [] {
      assert a + b == b;
    } else {
      assert (a + b)[0] == a[0];
      assert (a + b)[1..] == a[1..] + b;
      match run(at, a[0], flag)
      case Threw(_) =>
      case Returned(f) =>
        FanOutAppend(a[1..], b, at + 1, run, f);
    }
  }

  /**
   * Fail-fast: when handler `k` runs and throws, it is the last handler run, and the
   * dispatch fails naming it.
   */
  lemma FanOutStopsAtFailure(hs: seq<EventCaller>, run: Run, flag: bool, k: nat)
    requires var d := FanOut(hs, 0, run, flag); k < |d.calls| && d.calls[k].step.Threw?
    ensures var d := FanOut(hs, 0, run, flag);
      |d.calls| == k + 1 && k < |hs| && d.outcome == Fail(HandlerFailed(hs[k]))
  {
    FanOutOrder(hs, 0, run, flag);
    FanOutChained(hs, 0, run, flag);
    FanOutOutcome(hs, 0, run, flag);
  }

  /**
   * A record that sits in a slot twice is invoked twice, and the two invocations need
   * not agree: a handler that returns the first time may throw the second time, and
   * the dispatch then fails naming it after both invocations.
   */
  lemma SecondInvocationMayThrow(h: EventCaller, flag: bool)
    ensures var run: Run := (at, c, f) => if at == 0 then Returned(f) else Threw(f);
      FanOut([h, h], 0, run, flag) ==
        Delivery([Call(0, h, flag, Returned(flag)), Call(1, h, flag, Threw(flag))], Fail(HandlerFailed(h)), flag)
  {
    var run: Run := (at, c, f) => if at == 0 then Returned(f) else Threw(f);
    assert [h, h][1..] == [h];
    assert FanOut([h], 1, run, flag) == Delivery([Call(1, h, flag, Threw(flag))], Fail(HandlerFailed(h)), flag);
  }

  /**
   * invokeTriggers on an event of class `kind` whose flag is `flag`. With no slot open
   * for `kind` it fails with Unregistered, runs nothing and leaves the flag alone;
   * otherwise it fans out over the slot's list. DispatchBehaviour states what the
   * fan-out does.
   */
  function Dispatch(slots: Slots, kind: ClassName, run: Run, flag: bool): (d: Delivery)
    ensures kind !in slots <==> d.outcome == Fail(Unregistered(kind))
    ensures kind !in slots ==> d.calls == [] && d.cancelled == flag
  {
    if kind !in slots then Delivery([], Fail(Unregistered(kind)), flag)
    else
      FanOutOutcome(slots[kind], 0, run, flag);
      FanOut(slots[kind], 0, run, flag)
  }

  /**
   * On an open slot, invokeTriggers runs a prefix of the slot's handlers in list order,
   * chained on the one event; it succeeds only when all of them ran and returned, and
   * it fails naming the last one run when that one threw.
   */
  lemma DispatchBehaviour(slots: Slots, kind: ClassName, run: Run, flag: bool)
    ensures var d := Dispatch(slots, kind, run, flag);
      kind in slots ==> InOrder(d.calls, slots[kind], 0)
    ensures var d := Dispatch(slots, kind, run, flag);
      Chained(d.calls, run, flag) && d.cancelled == FlagAfter(d.calls, flag)
    ensures var d := Dispatch(slots, kind, run, flag);
      d.outcome == Pass ==>
        kind in slots && |d.calls| == |slots[kind]| && forall j :: 0 <= j < |d.calls| ==> d.calls[j].step.Returned?
    ensures var d := Dispatch(slots, kind, run, flag);
      d.outcome.Fail? && kind in slots ==>
        && d.calls != []
        && d.calls[|d.calls| - 1].step.Threw?
        && d.outcome == Fail(HandlerFailed(d.calls[|d.calls| - 1].caller))
  {
    if kind in slots {
      FanOutOrder(slots[kind], 0, run, flag);
      FanOutChained(slots[kind], 0, run, flag);
      FanOutOutcome(slots[kind], 0, run, flag);
    }
  }

  /** An open slot with no handlers dispatches successfully and runs nothing. */
  lemma DispatchEmptySlot(slots: Slots, kind: ClassName, run: Run, flag: bool)
    requires StateOf(slots, kind) == Open
    ensures Dispatch(slots, kind, run, flag) == Delivery([], Pass, flag)
  {
  }

  /**
   * When every handler returns, each handler of the slot runs once, in list order,
   * and the dispatch succeeds.
   */
  lemma DispatchAllReturn(slots: Slots, kind: ClassName, run: Run, flag: bool)
    requires kind in slots
    requires forall at, c, f :: run(at, c, f).Returned?
    ensures var d := Dispatch(slots, kind, run, flag);
      d.outcome == Pass && |d.calls| == |slots[kind]| &&
      forall j :: 0 <= j < |d.calls| ==> d.calls[j].caller == slots[kind][j]
  {
    DispatchBehaviour(slots, kind, run, flag);
  }

  /**
   * Exact-class routing: in a typed registry every handler that runs declares exactly
   * the event's class as its one parameter.
   */
  lemma DispatchTyped(slots: Slots, kind: ClassName, run: Run, flag: bool)
    requires Typed(slots)
    ensures var d := Dispatch(slots, kind, run, flag);
      forall j :: 0 <= j < |d.calls| ==> HandlesExactly(d.calls[j].caller.handler, kind)
  {
    DispatchBehaviour(slots, kind, run, flag);
    var d := Dispatch(slots, kind, run, flag);
    forall j | 0 <= j < |d.calls| ensures HandlesExactly(d.calls[j].caller.handler, kind) {
      assert d.calls[j].caller in slots[kind];
    }
  }
}
