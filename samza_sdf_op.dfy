/** The Samza operator that runs the keyed-elements stage of a splittable
    DoFn: the bundle bracketing around elements and timers, the poll for
    ready timers after the input watermark moves, and the advance of the
    output watermark.

    The DoFn runner, the timer store and the emitter are not modelled; the
    operator's calls to them are recorded, in order, in an event trace. The
    timer store's own state is reduced to the two watermarks it holds for
    the operator, and the collection its `removeReadyTimers` returns is a
    parameter. */
module SamzaSdfOp {
  import opened Results

  /** A point in event time, in milliseconds. */
  type Instant = int

  /** A timer as the runner sees it; its fields are not inspected here. */
  datatype TimerData = TimerData(timerId: string, timestamp: Instant)

  /** A timer together with the key (the encoded bytes) it belongs to. */
  datatype KeyedTimerData = KeyedTimerData(key: seq<bv8>, timerData: TimerData)

  /** The unit of work handed to the runner: elements or timers of one key. */
  datatype KeyedWorkItem<E> = KeyedWorkItem(key: seq<bv8>, timers: seq<TimerData>, elements: seq<E>)

  datatype Windowing = GlobalWindow | OtherWindows

  /** A value and the windows it belongs to (timestamp and pane are not
      modelled). */
  datatype WindowedValue<T> = WindowedValue(value: T, windowing: Windowing)

  /** One call of the operator into the runner, the timer store or the
      emitter. */
  datatype Event<E> =
    | StartBundle
    | ProcessElement(input: WindowedValue<KeyedWorkItem<E>>)
    | FinishBundle
    | SetInputWatermark(watermark: Instant)
    | RemoveReadyTimers
    | SetOutputWatermark(watermark: Instant)
    | EmitWatermark(watermark: Instant)
    | RemoveProcessingTimer(keyedTimer: KeyedTimerData)

  // ---------------------------------------------------------------------
  // Firing timers
  // ---------------------------------------------------------------------

  /** The work item that fires one timer: that key, that timer, no
      elements. */
  function TimersWorkItem<E>(key: seq<bv8>, timer: TimerData): (w: KeyedWorkItem<E>)
    ensures w.key == key && w.timers == [timer] && w.elements == []
  {
    KeyedWorkItem(key, [timer], [])
  }

  /** The runner call `fireTimer` makes. */
  function FireEvent<E>(key: seq<bv8>, timer: TimerData): Event<E> {
    ProcessElement(WindowedValue(TimersWorkItem(key, timer), GlobalWindow))
  }

  /** The runner calls for firing `timers` one after another. */
  function FiredTimers<E>(timers: seq<KeyedTimerData>): (events: seq<Event<E>>)
    ensures |events| == |timers|
    ensures forall i :: 0 <= i < |events| ==> events[i].ProcessElement?
  {
    if timers == [] then []
    else FiredTimers(timers[..|timers| - 1]) + [FireEvent(timers[|timers| - 1].key, timers[|timers| - 1].timerData)]
  }

  /** The keyed timers carried by timers-only, single-timer work items in
      `events`, in order. */
  function TimersOf<E>(events: seq<Event<E>>): seq<KeyedTimerData> {
    if events == [] then []
    else
      var e := events[|events| - 1];
      TimersOf(events[..|events| - 1]) +
        (if e.ProcessElement? && |e.input.value.timers| == 1 && e.input.value.elements == []
         then [KeyedTimerData(e.input.value.key, e.input.value.timers[0])]
         else [])
  }

  /** Every ready timer is fired exactly once, in the order given, and
      nothing else is fired. */
  lemma {:induction false} FiredTimersFireEachOnce<E>(timers: seq<KeyedTimerData>)
    ensures TimersOf<E>(FiredTimers<E>(timers)) == timers
  {
    if timers != [] {
      var n := |timers| - 1;
      var init := timers[..n];
      FiredTimersFireEachOnce<E>(init);
      var events := FiredTimers<E>(timers);
      assert events[..|events| - 1] == FiredTimers<E>(init);
      assert timers == init + [KeyedTimerData(timers[n].key, timers[n].timerData)];
    }
  }

  /** The runner calls around the ready timers: nothing when none is ready,
      otherwise one bundle holding one firing per timer. */
  function TimerBundle<E>(ready: seq<KeyedTimerData>): (events: seq<Event<E>>)
    ensures ready == [] <==> events == []
    ensures ready != [] ==>
      |events| == |ready| + 2 && events[0] == StartBundle && events[|events| - 1] == FinishBundle &&
      events[1..|events| - 1] == FiredTimers(ready)
  {
    if ready == [] then [] else [StartBundle] + FiredTimers(ready) + [FinishBundle]
  }

  // ---------------------------------------------------------------------
  // Watermarks
  // ---------------------------------------------------------------------

  /** The output watermark is moved to the input watermark only when it is
      unset or strictly earlier. */
  predicate Advances(output: Option<Instant>, watermark: Instant) {
    output.None? || output.value < watermark
  }

  /** The output watermark after `processWatermark(watermark)`. */
  function NextOutput(output: Option<Instant>, watermark: Instant): (next: Option<Instant>)
    ensures next.Some?
    ensures output.Some? ==> output.value <= next.value
    ensures next.value == watermark || next == output
  {
    if Advances(output, watermark) then Some(watermark) else output
  }

  /** The timer-store and emitter calls that move the output watermark. */
  function OutputEvents<E>(output: Option<Instant>, watermark: Instant): seq<Event<E>> {
    if Advances(output, watermark) then [SetOutputWatermark(watermark), EmitWatermark(watermark)] else []
  }

  /** Everything `processWatermark(watermark)` does, given the output
      watermark before the call and the timers the store reports ready. */
  function WatermarkEvents<E>(output: Option<Instant>, watermark: Instant, ready: seq<KeyedTimerData>): (events: seq<Event<E>>)
    ensures |events| == 2 + (if ready == [] then 0 else |ready| + 2) + (if Advances(output, watermark) then 2 else 0)
    ensures forall i :: 0 <= i < |events| && events[i].SetOutputWatermark? ==>
      Advances(output, watermark) && events[i].watermark == watermark
  {
    [SetInputWatermark(watermark), RemoveReadyTimers] + TimerBundle(ready) + OutputEvents(output, watermark)
  }

  /** The watermarks handed to the emitter, in order. */
  function Emissions<E>(events: seq<Event<E>>): seq<Instant> {
    if events == [] then []
    else
      Emissions(events[..|events| - 1]) +
        (if events[|events| - 1].EmitWatermark? then [events[|events| - 1].watermark] else [])
  }

  lemma {:induction false} EmissionsConcat<E>(a: seq<Event<E>>, b: seq<Event<E>>)
    ensures Emissions(a + b) == Emissions(a) + Emissions(b)
    decreases |b|
  {
    if b == [] {
      assert a + b == a;
    } else {
      var n := |b| - 1;
      EmissionsConcat(a, b[..n]);
      assert (a + b)[..|a + b| - 1] == a + b[..n];
    }
  }

  lemma {:induction false} NoEmissionsWithoutEmit<E>(events: seq<Event<E>>)
    requires forall i :: 0 <= i < |events| ==> !events[i].EmitWatermark?
    ensures Emissions(events) == []
  {
    if events != [] {
      NoEmissionsWithoutEmit(events[..|events| - 1]);
    }
  }

  /** `processWatermark` sets the input watermark before it polls for ready
      timers, fires the timers before it touches the output watermark, and
      emits exactly the new output watermark when, and only when, it
      advances. */
  lemma WatermarkEventsOrder<E>(output: Option<Instant>, watermark: Instant, ready: seq<KeyedTimerData>)
    ensures var events := WatermarkEvents<E>(output, watermark, ready);
      events[0] == SetInputWatermark(watermark) && events[1] == RemoveReadyTimers &&
      events[2..2 + |TimerBundle<E>(ready)|] == TimerBundle(ready) &&
      Emissions(events) == (if Advances(output, watermark) then [watermark] else [])
  {
    var bundle := TimerBundle<E>(ready);
    var events := WatermarkEvents<E>(output, watermark, ready);
    var head: seq<Event<E>> := [SetInputWatermark(watermark), RemoveReadyTimers];
    assert events == head + bundle + OutputEvents(output, watermark);
    assert events[2..2 + |bundle|] == bundle;
    EmissionsConcat(head, bundle);
    EmissionsConcat(head + bundle, OutputEvents<E>(output, watermark));
    NoEmissionsWithoutEmit(head);
    if ready != [] {
      NoEmissionsWithoutEmit(bundle);
    }
    var out := OutputEvents<E>(output, watermark);
    if Advances(output, watermark) {
      assert out[..1] == [SetOutputWatermark(watermark)];
      NoEmissionsWithoutEmit(out[..1]);
    }
  }

  lemma ConcatAssociates<T>(a: seq<T>, b: seq<T>, c: seq<T>, d: seq<T>)
    ensures a + b + c + d == a + (b + c + d)
  {
  }

  /** Strictly increasing. */
  predicate Increasing(s: seq<Instant>) {
    forall i, j :: 0 <= i < j < |s| ==> s[i] < s[j]
  }

  /** The emitted watermarks are strictly increasing and the last one is
      the current output watermark. */
  predicate EmissionsAgree(emitted: seq<Instant>, output: Option<Instant>) {
    Increasing(emitted) && (emitted != [] ==> output == Some(emitted[|emitted| - 1]))
  }

  lemma IncreasingAppend(s: seq<Instant>, x: Instant)
    requires Increasing(s) && (s != [] ==> s[|s| - 1] < x)
    ensures Increasing(s + [x])
  {
    var t := s + [x];
    forall i, j | 0 <= i < j < |t|
      ensures t[i] < t[j]
    {
      if j == |t| - 1 && s != [] {
        assert t[i] <= s[|s| - 1];
      }
    }
  }

  /** One `processWatermark` keeps the emitted watermarks strictly increasing
      and in step with the output watermark, which never decreases. */
  lemma WatermarkStepKeepsEmissions<E>(emitted: seq<Instant>, output: Option<Instant>, watermark: Instant, ready: seq<KeyedTimerData>)
    requires EmissionsAgree(emitted, output)
    ensures EmissionsAgree(emitted + Emissions(WatermarkEvents<E>(output, watermark, ready)), NextOutput(output, watermark))
  {
    WatermarkEventsOrder<E>(output, watermark, ready);
    if Advances(output, watermark) {
      IncreasingAppend(emitted, watermark);
    } else {
      assert emitted + [] == emitted;
    }
  }

  // ---------------------------------------------------------------------
  // The operator
  // ---------------------------------------------------------------------

  class SplittableParDoProcessKeyedElementsOp<E> {
    /** The input watermark the timer store was last given. */
    var inputWatermark: Option<Instant>
    /** The output watermark held by the timer store. */
    var outputWatermark: Option<Instant>
    /** The calls made so far, in order. */
    var trace: seq<Event<E>>

    ghost predicate Valid()
      reads this
    {
      EmissionsAgree(Emissions(trace), outputWatermark)
    }

    constructor()
      ensures Valid()
      ensures inputWatermark == None && outputWatermark == None && trace == []
    {
      inputWatermark := None;
      outputWatermark := None;
      trace := [];
    }

    /** `processElement`: hand the element to the runner in a bundle of its
        own. */
    method ProcessElement(input: WindowedValue<KeyedWorkItem<E>>)
      requires Valid()
      modifies this
      ensures Valid()
      ensures trace == old(trace) + [StartBundle, Event.ProcessElement(input), FinishBundle]
      ensures inputWatermark == old(inputWatermark) && outputWatermark == old(outputWatermark)
    {
      ghost var added: seq<Event<E>> := [StartBundle, Event.ProcessElement(input), FinishBundle];
      trace := trace + [StartBundle];
      trace := trace + [Event.ProcessElement(input)];
      trace := trace + [FinishBundle];
      assert trace == old(trace) + added;
      EmissionsConcat(old(trace), added);
      NoEmissionsWithoutEmit(added);
      assert Emissions(old(trace)) + [] == Emissions(old(trace));
    }

    /** `fireTimer`: hand the runner a work item holding just that timer. */
    method FireTimer(key: seq<bv8>, timer: TimerData)
      modifies this
      ensures trace == old(trace) + [FireEvent(key, timer)]
      ensures inputWatermark == old(inputWatermark) && outputWatermark == old(outputWatermark)
    {
      trace := trace + [Event.ProcessElement(WindowedValue(TimersWorkItem(key, timer), GlobalWindow))];
    }

    /** `processWatermark`: pass the watermark to the timer store, fire the
        timers it reports ready in one bundle, then advance and emit the
        output watermark if it is unset or earlier. `ready` is what the
        store's `removeReadyTimers` returns. */
    method ProcessWatermark(watermark: Instant, ready: seq<KeyedTimerData>)
      requires Valid()
      modifies this
      ensures Valid()
      ensures inputWatermark == Some(watermark)
      ensures outputWatermark == NextOutput(old(outputWatermark), watermark)
      ensures trace == old(trace) + WatermarkEvents(old(outputWatermark), watermark, ready)
    {
      inputWatermark := Some(watermark);
      trace := trace + [SetInputWatermark(watermark)];
      trace := trace + [RemoveReadyTimers];
      ghost var polled := trace;
      if ready != [] {
        FireInBundle(ready);
      } else {
        assert polled + TimerBundle<E>(ready) == polled;
      }
      ghost var fired := trace;
      if outputWatermark.None? || outputWatermark.value < watermark {
        outputWatermark := Some(watermark);
        trace := trace + [SetOutputWatermark(watermark)];
        trace := trace + [EmitWatermark(watermark)];
      } else {
        assert fired + OutputEvents<E>(old(outputWatermark), watermark) == fired;
      }
      ghost var head: seq<Event<E>> := [SetInputWatermark(watermark), RemoveReadyTimers];
      ghost var bundle := TimerBundle<E>(ready);
      ghost var out := OutputEvents<E>(old(outputWatermark), watermark);
      assert polled == old(trace) + head;
      assert fired == old(trace) + head + bundle;
      assert trace == old(trace) + head + bundle + out;
      ConcatAssociates(old(trace), head, bundle, out);
      EmissionsConcat(old(trace), head + bundle + out);
      WatermarkStepKeepsEmissions<E>(Emissions(old(trace)), old(outputWatermark), watermark, ready);
    }

    /** The timer step of `processWatermark`: one bundle firing every ready
        timer in order. */
    method FireInBundle(ready: seq<KeyedTimerData>)
      requires ready != []
      modifies this
      ensures trace == old(trace) + TimerBundle(ready)
      ensures inputWatermark == old(inputWatermark) && outputWatermark == old(outputWatermark)
    {
      trace := trace + [StartBundle];
      for i := 0 to |ready|
        invariant trace == old(trace) + [StartBundle] + FiredTimers(ready[..i])
        invariant inputWatermark == old(inputWatermark) && outputWatermark == old(outputWatermark)
      {
        FireTimer(ready[i].key, ready[i].timerData);
        assert ready[..i + 1][..i] == ready[..i];
      }
      assert ready[..|ready|] == ready;
      trace := trace + [FinishBundle];
    }

    /** `processTimer`: fire the timer in a bundle of its own, then remove it
        from the processing-time timers. */
    method ProcessTimer(keyedTimer: KeyedTimerData)
      requires Valid()
      modifies this
      ensures Valid()
      ensures trace == old(trace) +
        [StartBundle, FireEvent(keyedTimer.key, keyedTimer.timerData), FinishBundle, RemoveProcessingTimer(keyedTimer)]
      ensures inputWatermark == old(inputWatermark) && outputWatermark == old(outputWatermark)
    {
      ghost var added: seq<Event<E>> :=
        [StartBundle, FireEvent(keyedTimer.key, keyedTimer.timerData), FinishBundle, RemoveProcessingTimer(keyedTimer)];
      trace := trace + [StartBundle];
      FireTimer(keyedTimer.key, keyedTimer.timerData);
      trace := trace + [FinishBundle];
      trace := trace + [RemoveProcessingTimer(keyedTimer)];
      assert trace == old(trace) + added;
      EmissionsConcat(old(trace), added);
      NoEmissionsWithoutEmit(added);
      assert Emissions(old(trace)) + [] == Emissions(old(trace));
    }
  }
}
