/** Events acted on after a sliding delay (lib/metadata/event-debouncer.js). */
module Debouncing {
  import opened Wrappers

  /** An event asks for a refresh of everything, of a keyspace (when it names no object) or of one object. */
  datatype Event = Event(all: bool, keyspace: string, wholeKeyspace: bool)

  /** Events are known by their place in the order they were received in. */
  datatype KeyspaceEvents = KeyspaceEvents(events: seq<nat>, mainEvent: Option<nat>)

  /** The keyspaces are listed in the order in which they were added. */
  datatype Queue = Queue(callbacks: seq<nat>, names: seq<string>, keyspaces: map<string, KeyspaceEvents>, mainEvent: Option<nat>)

  /** A handler called, and how many events had been received by then. */
  datatype Call = Call(handler: nat, received: nat)

  /** A handler that runs, and the callbacks to invoke when it has ended. */
  datatype Job = Job(handler: nat, callbacks: seq<nat>)

  /** A callback invoked, after a handler or by the shutdown. */
  datatype Invocation = Invocation(id: nat, after: Option<nat>)

  /** The fields of the debouncer, and what has become of the events. */
  datatype State = State(queue: Option<Queue>, timeout: bool, received: seq<Event>, calls: seq<Call>, jobs: seq<Job>,
                         invoked: seq<Invocation>)

  const EMPTY := Queue([], [], map[], None)

  function Start(): State {
    State(None, false, [], [], [], [])
  }

  // ----- One step at a time -----

  function WithCallback(q: Queue, id: nat, e: Event): Queue {
    q.(mainEvent := if e.all then Some(id) else q.mainEvent, callbacks := q.callbacks + [id])
  }

  function WithKeyspaceEvent(q: Queue, id: nat, e: Event): Queue {
    var known := e.keyspace in q.keyspaces;
    var k := if known then q.keyspaces[e.keyspace] else KeyspaceEvents([], None);
    q.(names := if known then q.names else q.names + [e.keyspace],
       keyspaces := q.keyspaces[e.keyspace :=
         KeyspaceEvents(k.events + [id], if e.wholeKeyspace then Some(id) else k.mainEvent)])
  }

  /** The queue with one more event; under a main event only its callback matters. */
  function Enqueue(q: Queue, id: nat, e: Event): (r: Queue)
    ensures Listed(q) ==> Listed(r)
  {
    var q := WithCallback(q, id, e);
    if q.mainEvent.Some? then q else WithKeyspaceEvent(q, id, e)
  }

  function CallHandler(s: State, h: nat): State {
    s.(calls := s.calls + [Call(h, |s.received|)])
  }

  function StartJob(s: State, h: nat, callbacks: seq<nat>): State {
    CallHandler(s, h).(jobs := s.jobs + [Job(h, callbacks)])
  }

  /** The first n events by themselves: handler, then callback. */
  function RunEach(s: State, events: seq<nat>, n: nat): State
    requires n <= |events|
  {
    if n == 0 then s
    else
      var t, id := RunEach(s, events, n - 1), events[n - 1];
      CallHandler(t, id).(invoked := t.invoked + [Invocation(id, Some(id))])
  }

  function ProcessKeyspace(s: State, k: KeyspaceEvents): State {
    if k.mainEvent.Some? then StartJob(s, k.mainEvent.value, k.events) else RunEach(s, k.events, |k.events|)
  }

  /** The first n keyspaces. */
  function ProcessNames(s: State, q: Queue, n: nat): State
    requires n <= |q.names| && forall name <- q.names :: name in q.keyspaces
  {
    if n == 0 then s else ProcessKeyspace(ProcessNames(s, q, n - 1), q.keyspaces[q.names[n - 1]])
  }

  predicate Listed(q: Queue) {
    forall name <- q.names :: name in q.keyspaces
  }

  function Process(s: State, q: Queue): State
    requires Listed(q)
  {
    if q.mainEvent.Some? then StartJob(s, q.mainEvent.value, q.callbacks) else ProcessNames(s, q, |q.names|)
  }

  function InvokeAll(s: State, callbacks: seq<nat>, after: Option<nat>): State {
    s.(invoked := s.invoked + seq(|callbacks|, i requires 0 <= i < |callbacks| => Invocation(callbacks[i], after)))
  }

  datatype Step =
    | Received(e: Event, now: bool)  // now: its delay is zero
    | TimerFired
    | HandlerEnded(job: nat)
    | ShutDown

  predicate QueueListed(s: State) {
    s.queue.Some? ==> Listed(s.queue.value)
  }

  predicate Enabled(s: State, step: Step) {
    match step
    case TimerFired => s.timeout
    case HandlerEnded(job) => job < |s.jobs|
    case _ => true
  }

  function Next(s: State, step: Step): State
    requires Enabled(s, step) && QueueListed(s)
  {
    match step
    case Received(e, now) =>
      var t := s.(received := s.received + [e]);
      var q := Enqueue(if s.queue.Some? then s.queue.value else EMPTY, |s.received|, e);
      if now then Process(t.(queue := None, timeout := false), q) else t.(queue := Some(q), timeout := true)
    case TimerFired =>
      var t := s.(queue := None, timeout := false);
      if s.queue.Some? then Process(t, s.queue.value) else t
    case HandlerEnded(i) =>
      InvokeAll(s.(jobs := s.jobs[..i] + s.jobs[i + 1..]), s.jobs[i].callbacks, Some(s.jobs[i].handler))
    case ShutDown =>
      if s.queue.None? then s
      else InvokeAll(s, s.queue.value.callbacks, None).(queue := None, timeout := false)
  }

  // ----- The object -----

  class EventDebouncer {
    const delay: int
    var queue: Option<Queue>
    var timeout: bool
    var received: seq<Event>
    var calls: seq<Call>
    var jobs: seq<Job>
    var invoked: seq<Invocation>

    ghost function View(): State
      reads this
    {
      State(queue, timeout, received, calls, jobs, invoked)
    }

    constructor (delay: int)
      ensures View() == Start() && this.delay == delay
    {
      this.delay := delay;
      queue, timeout, received, calls, jobs, invoked := None, false, [], [], [], [];
    }

    method EventReceived(event: Event, processNow: bool)
      requires QueueListed(View())
      modifies this
      ensures View() == Next(old(View()), Received(event, processNow || delay == 0))
    {
      var id := |received|;
      received := received + [event];
      var q := if queue.Some? then queue.value else EMPTY;
      var delayNow := if !processNow then delay else 0;
      if event.all {
        // it stands for every other event of the queue
        q := q.(mainEvent := Some(id));
      }
      q := q.(callbacks := q.callbacks + [id]);
      if q.mainEvent.Some? {
        // the main event covers this one
        queue := Some(q);
        SlideDelay(delayNow);
        return;
      }
      var known := event.keyspace in q.keyspaces;
      var keyspaceEvents := if known then q.keyspaces[event.keyspace] else KeyspaceEvents([], None);
      if event.wholeKeyspace {
        // it stands for every other event of its keyspace
        keyspaceEvents := keyspaceEvents.(mainEvent := Some(id));
      }
      keyspaceEvents := keyspaceEvents.(events := keyspaceEvents.events + [id]);
      q := q.(names := if known then q.names else q.names + [event.keyspace],
              keyspaces := q.keyspaces[event.keyspace := keyspaceEvents]);
      queue := Some(q);
      SlideDelay(delayNow);
    }

    method SlideDelay(delayNow: int)
      requires queue.Some? && Listed(queue.value)
      modifies this
      ensures View() == if delayNow == 0 then Process(old(View()).(queue := None, timeout := false), old(queue).value)
                        else old(View()).(timeout := true)
    {
      if delayNow == 0 {
        OnTimeout();
        return;
      }
      timeout := true;
    }

    method OnTimeout()
      requires queue.Some? && Listed(queue.value)
      modifies this
      ensures View() == Process(old(View()).(queue := None, timeout := false), old(queue).value)
    {
      var q := queue.value;
      queue := None;
      timeout := false;
      ProcessQueue(q);
    }

    method ProcessQueue(q: Queue)
      requires Listed(q)
      modifies this`calls, this`jobs, this`invoked
      ensures View() == Process(old(View()), q)
    {
      if q.mainEvent.Some? {
        // one handler for the whole queue
        calls := calls + [Call(q.mainEvent.value, |received|)];
        jobs := jobs + [Job(q.mainEvent.value, q.callbacks)];
        return;
      }
      for n := 0 to |q.names|
        invariant queue == old(queue) && timeout == old(timeout) && received == old(received)
        invariant View() == ProcessNames(old(View()), q, n)
      {
        var keyspaceEvents := q.keyspaces[q.names[n]];
        if keyspaceEvents.mainEvent.Some? {
          // one handler for the keyspace
          calls := calls + [Call(keyspaceEvents.mainEvent.value, |received|)];
          jobs := jobs + [Job(keyspaceEvents.mainEvent.value, keyspaceEvents.events)];
        } else {
          // a handler and a callback for each event
          HandleEach(keyspaceEvents.events);
        }
      }
    }

    method HandleEach(events: seq<nat>)
      modifies this`calls, this`invoked
      ensures View() == RunEach(old(View()), events, |events|)
    {
      for i := 0 to |events|
        invariant queue == old(queue) && timeout == old(timeout) && received == old(received) && jobs == old(jobs)
        invariant View() == RunEach(old(View()), events, i)
      {
        calls := calls + [Call(events[i], |received|)];
        invoked := invoked + [Invocation(events[i], Some(events[i]))];
      }
    }

    method OnHandlerEnded(i: nat)
      requires i < |jobs| && QueueListed(View())
      modifies this
      ensures View() == Next(old(View()), HandlerEnded(i))
    {
      var job := jobs[i];
      jobs := jobs[..i] + jobs[i + 1..];
      InvokeCallbacks(job.callbacks, Some(job.handler));
    }

    method InvokeCallbacks(callbacks: seq<nat>, after: Option<nat>)
      modifies this`invoked
      ensures View() == InvokeAll(old(View()), callbacks, after)
    {
      var all := seq(|callbacks|, i requires 0 <= i < |callbacks| => Invocation(callbacks[i], after));
      for i := 0 to |callbacks|
        invariant invoked == old(invoked) + all[..i]
      {
        invoked := invoked + [Invocation(callbacks[i], after)];
        assert all[..i + 1] == all[..i] + [all[i]];
      }
      assert all[..|callbacks|] == all;
    }

    method Shutdown()
      requires QueueListed(View())
      modifies this
      ensures View() == Next(old(View()), ShutDown)
    {
      if queue.None? {
        return;
      }
      InvokeCallbacks(queue.value.callbacks, None);
      queue := None;
      timeout := false;
    }
  }
}
