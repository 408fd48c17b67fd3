/**
 Which handlers the debouncer calls, said of the events received since the queue was last empty, without
 the queue: the last event that asks for everything, or else in each keyspace the last event that asks
 for all of it, or else every event.
 */
module DebouncerBatches {
  import opened Debouncing
  import opened DebouncerLaws
  import opened Seqs
  import opened Wrappers

  // ----- What leads a batch of events -----

  /** The events from `from` on. */
  ghost predicate InBatch(received: seq<Event>, from: nat, id: int) {
    from <= id < |received|
  }

  /** No event from `from` on asks for everything. */
  ghost predicate NoneAsksForAll(received: seq<Event>, from: nat) {
    forall id :: InBatch(received, from, id) ==> !received[id].all
  }

  ghost predicate NoneAsksForKeyspace(received: seq<Event>, from: nat, name: string) {
    forall id :: InBatch(received, from, id) && received[id].keyspace == name ==> !received[id].wholeKeyspace
  }

  /** The handler of event `h` is the one to call, for all events of the batch, those of its keyspace or itself. */
  ghost predicate Leads(received: seq<Event>, from: nat, h: nat) {
    && InBatch(received, from, h)
    && if NoneAsksForAll(received, from) then LeadsKeyspace(received, from, h)
       else received[h].all && NoneAsksForAll(received, h + 1)
  }

  ghost predicate LeadsKeyspace(received: seq<Event>, from: nat, h: nat)
    requires h < |received|
  {
    NoneAsksForKeyspace(received, from, received[h].keyspace)
    || (received[h].wholeKeyspace && NoneAsksForKeyspace(received, h + 1, received[h].keyspace))
  }

  // ----- What a queue knows of its batch -----

  ghost predicate Increasing(ids: seq<nat>) {
    forall i, j :: 0 <= i < j < |ids| ==> ids[i] < ids[j]
  }

  ghost predicate KeyspaceIsBatch(received: seq<Event>, from: nat, name: string, k: KeyspaceEvents) {
    && Increasing(k.events)
    && (forall id :: id in k.events <==> InBatch(received, from, id) && received[id].keyspace == name)
    && match k.mainEvent
       case None => NoneAsksForKeyspace(received, from, name)
       case Some(m) =>
         && InBatch(received, from, m) && received[m].keyspace == name && received[m].wholeKeyspace
         && NoneAsksForKeyspace(received, m + 1, name)
  }

  ghost predicate KeyspacesAreBatch(received: seq<Event>, from: nat, q: Queue) {
    && (forall id :: InBatch(received, from, id) ==> received[id].keyspace in q.keyspaces)
    && forall name <- q.keyspaces.Keys :: KeyspaceIsBatch(received, from, name, q.keyspaces[name])
  }

  ghost predicate QueueIsBatch(received: seq<Event>, from: nat, q: Queue) {
    && |q.callbacks| + from == |received|
    && (forall i :: 0 <= i < |q.callbacks| ==> q.callbacks[i] == from + i)
    && match q.mainEvent
       case None => NoneAsksForAll(received, from) && KeyspacesAreBatch(received, from, q)
       case Some(m) => InBatch(received, from, m) && received[m].all && NoneAsksForAll(received, m + 1)
  }

  lemma EmptyIsBatch(received: seq<Event>)
    ensures QueueIsBatch(received, |received|, EMPTY)
  {
  }

  lemma KeyspaceBatchStays(received: seq<Event>, from: nat, e: Event, name: string, k: KeyspaceEvents)
    requires KeyspaceIsBatch(received, from, name, k) && e.keyspace != name && from <= |received|
    ensures KeyspaceIsBatch(received + [e], from, name, k)
  {
  }

  lemma KeyspaceBatchGrows(received: seq<Event>, from: nat, e: Event, k: KeyspaceEvents)
    requires KeyspaceIsBatch(received, from, e.keyspace, k) && from <= |received|
    ensures KeyspaceIsBatch(received + [e], from, e.keyspace,
      KeyspaceEvents(k.events + [|received|], if e.wholeKeyspace then Some(|received|) else k.mainEvent))
  {
    var now, id := received + [e], |received|;
    var events := k.events + [id];
    forall i | 0 <= i < |k.events|
      ensures k.events[i] < id
    {
      assert k.events[i] in k.events;
    }
    forall x
      ensures x in events <==> InBatch(now, from, x) && now[x].keyspace == e.keyspace
    {
      assert x in events <==> x in k.events || x == id;
    }
  }

  lemma {:induction false} KeyspacesBatchGrow(received: seq<Event>, from: nat, e: Event, q: Queue)
    requires KeyspacesAreBatch(received, from, q) && from <= |received|
    ensures KeyspacesAreBatch(received + [e], from, WithKeyspaceEvent(q, |received|, e))
  {
    var r := WithKeyspaceEvent(q, |received|, e);
    var k := if e.keyspace in q.keyspaces then q.keyspaces[e.keyspace] else KeyspaceEvents([], None);
    assert KeyspaceIsBatch(received, from, e.keyspace, k) by {
      if e.keyspace in q.keyspaces {
        assert e.keyspace in q.keyspaces.Keys;
      }
    }
    KeyspaceBatchGrows(received, from, e, k);
    hide KeyspaceIsBatch;
    forall name <- r.keyspaces.Keys
      ensures KeyspaceIsBatch(received + [e], from, name, r.keyspaces[name])
    {
      if name != e.keyspace {
        assert name in q.keyspaces.Keys;
        KeyspaceBatchStays(received, from, e, name, q.keyspaces[name]);
      }
    }
    forall id | InBatch(received + [e], from, id)
      ensures (received + [e])[id].keyspace in r.keyspaces
    {
      if id < |received| {
        assert InBatch(received, from, id);
      }
    }
  }

  lemma {:induction false} EnqueueIsBatch(received: seq<Event>, from: nat, q: Queue, e: Event)
    requires QueueIsBatch(received, from, q)
    ensures QueueIsBatch(received + [e], from, Enqueue(q, |received|, e))
  {
    var now, r := received + [e], Enqueue(q, |received|, e);
    assert r.callbacks == q.callbacks + [|received|];
    if r.mainEvent.None? {
      KeyspacesBatchGrow(received, from, e, WithCallback(q, |received|, e));
      forall id | InBatch(now, from, id)
        ensures !now[id].all
      {
        assert id < |received| ==> InBatch(received, from, id);
      }
    } else if !e.all {
      var m := q.mainEvent.value;
      forall id | InBatch(now, m + 1, id)
        ensures !now[id].all
      {
        assert id < |received| ==> InBatch(received, m + 1, id);
      }
    }
  }

  // ----- The handlers called when a queue is acted on -----

  function CallsOf(ids: seq<nat>, received: nat): (r: seq<Call>)
    ensures |r| == |ids| && forall i :: 0 <= i < |r| ==> r[i] == Call(ids[i], received)
  {
    seq(|ids|, i requires 0 <= i < |ids| => Call(ids[i], received))
  }

  function KeyspaceLeaders(k: KeyspaceEvents): seq<nat> {
    if k.mainEvent.Some? then [k.mainEvent.value] else k.events
  }

  function LeadersUpto(q: Queue, n: nat): seq<nat>
    requires n <= |q.names| && Listed(q)
  {
    if n == 0 then [] else LeadersUpto(q, n - 1) + KeyspaceLeaders(q.keyspaces[q.names[n - 1]])
  }

  function Leaders(q: Queue): seq<nat>
    requires Listed(q)
  {
    if q.mainEvent.Some? then [q.mainEvent.value] else LeadersUpto(q, |q.names|)
  }

  lemma {:induction false} RunEachCalls(s: State, events: seq<nat>, n: nat)
    requires n <= |events|
    ensures RunEach(s, events, n).calls == s.calls + CallsOf(events[..n], |s.received|)
    decreases n
  {
    if n > 0 {
      RunEachCalls(s, events, n - 1);
      RunEachLeaves(s, events, n - 1);
      assert CallsOf(events[..n], |s.received|) == CallsOf(events[..n - 1], |s.received|) + [Call(events[n - 1], |s.received|)];
    }
  }

  lemma JoinCalls(a: seq<nat>, b: seq<nat>, received: nat)
    ensures CallsOf(a + b, received) == CallsOf(a, received) + CallsOf(b, received)
  {
  }

  lemma {:induction false} ProcessKeyspaceCalls(s: State, k: KeyspaceEvents)
    ensures ProcessKeyspace(s, k).calls == s.calls + CallsOf(KeyspaceLeaders(k), |s.received|)
    ensures ProcessKeyspace(s, k).received == s.received
  {
    hide RunEach;
    RunEachLeaves(s, k.events, |k.events|);
    RunEachCalls(s, k.events, |k.events|);
    assert k.events[..|k.events|] == k.events;
  }

  lemma {:induction false} ProcessNamesCalls(s: State, q: Queue, n: nat)
    requires Listed(q) && n <= |q.names|
    ensures ProcessNames(s, q, n).calls == s.calls + CallsOf(LeadersUpto(q, n), |s.received|)
    decreases n
  {
    hide CallsOf, KeyspaceLeaders, ProcessKeyspace;
    if n == 0 {
      assert CallsOf([], |s.received|) == [];
    } else {
      var k, t := q.keyspaces[q.names[n - 1]], ProcessNames(s, q, n - 1);
      ProcessNamesCalls(s, q, n - 1);
      ProcessNamesLeaves(s, q, n - 1);
      ProcessKeyspaceCalls(t, k);
      JoinCalls(LeadersUpto(q, n - 1), KeyspaceLeaders(k), |s.received|);
      Assoc(s.calls, CallsOf(LeadersUpto(q, n - 1), |s.received|), CallsOf(KeyspaceLeaders(k), |s.received|));
    }
  }

  lemma ProcessCalls(s: State, q: Queue)
    requires Listed(q)
    ensures Process(s, q).calls == s.calls + CallsOf(Leaders(q), |s.received|)
  {
    ProcessNamesCalls(s, q, |q.names|);
  }

  lemma LaterInBatch(received: seq<Event>, from: nat, h: nat, m: nat)
    ensures InBatch(received, from, m) && h < m ==> InBatch(received, h + 1, m)
    ensures InBatch(received, from, h) && m < h ==> InBatch(received, m + 1, h)
  {
  }

  lemma KeyspaceLeadersLead(received: seq<Event>, from: nat, name: string, k: KeyspaceEvents, h: nat)
    requires KeyspaceIsBatch(received, from, name, k)
    ensures h in KeyspaceLeaders(k) <==>
      InBatch(received, from, h) && received[h].keyspace == name && LeadsKeyspace(received, from, h)
    ensures Increasing(KeyspaceLeaders(k))
  {
    if k.mainEvent.Some? {
      LaterInBatch(received, from, h, k.mainEvent.value);
    }
  }

  lemma {:induction false} UptoLead(received: seq<Event>, from: nat, q: Queue, n: nat, h: nat)
    requires NamesOnce(q) && KeyspacesAreBatch(received, from, q) && n <= |q.names|
    ensures h in LeadersUpto(q, n) <==>
      InBatch(received, from, h) && received[h].keyspace in q.names[..n] && LeadsKeyspace(received, from, h)
    decreases n
  {
    hide LeadsKeyspace, KeyspaceIsBatch, KeyspaceLeaders;
    if n > 0 {
      var name := q.names[n - 1];
      UptoLead(received, from, q, n - 1, h);
      assert name in q.keyspaces.Keys;
      KeyspaceLeadersLead(received, from, name, q.keyspaces[name], h);
      assert q.names[..n] == q.names[..n - 1] + [name];
    }
  }

  lemma {:induction false} LeadersLead(received: seq<Event>, from: nat, q: Queue, h: nat)
    requires NamesOnce(q) && QueueIsBatch(received, from, q)
    ensures h in Leaders(q) <==> Leads(received, from, h)
  {
    hide LeadsKeyspace, KeyspaceIsBatch, LeadersUpto;
    if q.mainEvent.None? {
      UptoLead(received, from, q, |q.names|, h);
      assert q.names[..|q.names|] == q.names;
      if InBatch(received, from, h) {
        assert received[h].keyspace in q.keyspaces.Keys;
      }
    } else {
      LaterInBatch(received, from, h, q.mainEvent.value);
    }
  }

  // ----- The order of the calls -----

  /** Where two handlers of one keyspace were called, the one of the earlier event was called first. */
  ghost predicate InOrder(received: seq<Event>, ids: seq<nat>) {
    && (forall id <- ids :: id < |received|)
    && forall i, j :: 0 <= i < j < |ids| && KeyspaceOf(received, ids[i]) == KeyspaceOf(received, ids[j]) ==> ids[i] < ids[j]
  }

  ghost function KeyspaceOf(received: seq<Event>, id: nat): Option<string> {
    if id < |received| then Some(received[id].keyspace) else None
  }

  ghost predicate Apart(received: seq<Event>, a: seq<nat>, b: seq<nat>) {
    forall i, j :: 0 <= i < |a| && 0 <= j < |b| && KeyspaceOf(received, a[i]) == KeyspaceOf(received, b[j]) ==> a[i] < b[j]
  }

  lemma JoinInOrder(received: seq<Event>, a: seq<nat>, b: seq<nat>)
    requires InOrder(received, a) && InOrder(received, b) && Apart(received, a, b)
    ensures InOrder(received, a + b)
  {
  }

  lemma {:induction false} UptoInOrder(received: seq<Event>, from: nat, q: Queue, n: nat)
    requires NamesOnce(q) && KeyspacesAreBatch(received, from, q) && n <= |q.names|
    ensures InOrder(received, LeadersUpto(q, n))
    decreases n
  {
    hide LeadsKeyspace, KeyspaceLeaders;
    if n > 0 {
      var name := q.names[n - 1];
      UptoInOrder(received, from, q, n - 1);
      assert name in q.keyspaces.Keys;
      var a, b := LeadersUpto(q, n - 1), KeyspaceLeaders(q.keyspaces[name]);
      forall id <- a
        ensures id < |received| && received[id].keyspace != name
      {
        UptoLead(received, from, q, n - 1, id);
      }
      forall id <- b
        ensures id < |received| && received[id].keyspace == name
      {
        KeyspaceLeadersLead(received, from, name, q.keyspaces[name], id);
      }
      KeyspaceLeadersLead(received, from, name, q.keyspaces[name], 0);
      JoinInOrder(received, a, b);
    }
  }

  // ----- Every run -----

  /** The number of events that have left the queue. */
  ghost function Settled(s: State): int {
    |s.received| - if s.queue.None? then 0 else |s.queue.value.callbacks|
  }

  ghost function Handlers(calls: seq<Call>): (r: seq<nat>)
    ensures |r| == |calls| && forall i :: 0 <= i < |r| ==> r[i] == calls[i].handler
  {
    seq(|calls|, i requires 0 <= i < |calls| => calls[i].handler)
  }

  ghost predicate Batched(s: State) {
    && 0 <= Settled(s)
    && (s.queue.Some? ==> QueueIsBatch(s.received, Settled(s), s.queue.value) && NamesOnce(s.queue.value))
    && InOrder(s.received, Handlers(s.calls))
    && forall id <- Handlers(s.calls) :: id < Settled(s)
  }

  /** The handlers called between two states are those that lead the batch. */
  ghost predicate LeadersCalled(s: State, t: State, received: seq<Event>, from: nat) {
    && |s.calls| <= |t.calls| && t.calls[..|s.calls|] == s.calls
    && (forall k :: |s.calls| <= k < |t.calls| ==>
        Leads(received, from, t.calls[k].handler) && t.calls[k].received == |received|)
    && forall h :: Leads(received, from, h) ==> exists k :: |s.calls| <= k < |t.calls| && t.calls[k].handler == h
  }

  lemma {:induction false} LeadersInOrder(received: seq<Event>, from: nat, q: Queue)
    requires NamesOnce(q) && QueueIsBatch(received, from, q)
    ensures InOrder(received, Leaders(q))
  {
    hide KeyspaceIsBatch, LeadersUpto;
    if q.mainEvent.None? {
      UptoInOrder(received, from, q, |q.names|);
    }
  }

  lemma {:induction false} AddedInOrder(received: seq<Event>, from: nat, a: seq<nat>, b: seq<nat>)
    requires InOrder(received, a) && InOrder(received, b)
    requires (forall id <- a :: id < from) && forall id <- b :: from <= id < |received|
    ensures InOrder(received, a + b)
  {
    forall i, j | 0 <= i < |a| && 0 <= j < |b|
      ensures a[i] < b[j]
    {
      assert a[i] in a && b[j] in b;
    }
    JoinInOrder(received, a, b);
  }

  lemma ListedOnce(q: Queue)
    requires NamesOnce(q)
    ensures Listed(q)
  {
  }

  lemma {:induction false} ProcessBatched(s: State, from: nat, q: Queue)
    requires s.queue.None? && QueueIsBatch(s.received, from, q) && NamesOnce(q) && Listed(q)
    requires InOrder(s.received, Handlers(s.calls)) && forall id <- Handlers(s.calls) :: id < from
    ensures Batched(Process(s, q)) && Process(s, q).queue.None?
    ensures LeadersCalled(s, Process(s, q), s.received, from)
  {
    hide QueueIsBatch, NamesOnce, Leads, Process, InOrder, Listed, CallsOf;
    var t := Process(s, q);
    ProcessCalls(s, q);
    ProcessLeaves(s, q);
    var a, b := Handlers(s.calls), Leaders(q);
    assert Handlers(t.calls) == a + b;
    forall h
      ensures h in b <==> Leads(s.received, from, h)
    {
      LeadersLead(s.received, from, q, h);
    }
    forall h <- b
      ensures from <= h < |s.received|
    {
      LeadersAreIn(s.received, from, h);
    }
    BatchFrom(s.received, from, q);
    LeadersInOrder(s.received, from, q);
    AddedInOrder(s.received, from, a, b);
    assert t.calls[..|s.calls|] == s.calls;
    forall h | Leads(s.received, from, h)
      ensures exists k :: |s.calls| <= k < |t.calls| && t.calls[k].handler == h
    {
      assert h in b;
      var i :| 0 <= i < |b| && b[i] == h;
      assert t.calls[|s.calls| + i].handler == h;
    }
    forall k | |s.calls| <= k < |t.calls|
      ensures Leads(s.received, from, t.calls[k].handler) && t.calls[k].received == |s.received|
    {
      assert t.calls[k].handler == b[k - |s.calls|];
    }
  }

  lemma LeadersAreIn(received: seq<Event>, from: nat, h: nat)
    requires Leads(received, from, h)
    ensures from <= h < |received|
  {
  }

  lemma BatchFrom(received: seq<Event>, from: nat, q: Queue)
    requires QueueIsBatch(received, from, q)
    ensures from <= |received|
  {
  }

  /** Whether a step acts on the queue. */
  ghost predicate Acts(s: State, step: Step) {
    (step.Received? && step.now) || (step.TimerFired? && s.timeout)
  }

  lemma {:induction false} ReceivedBatched(s: State, e: Event, now: bool)
    requires Batched(s) && QueueListed(s)
    ensures var t := Next(s, Received(e, now));
      && Batched(t) && t.received == s.received + [e]
      && if now then LeadersCalled(s, t, s.received + [e], Settled(s)) && t.queue.None?
         else t.calls == s.calls && Settled(t) == Settled(s)
  {
    hide QueueIsBatch, NamesOnce, InOrder, Listed, Enqueue, Process, LeadersCalled, Handlers;
    var q0 := if s.queue.Some? then s.queue.value else EMPTY;
    var q := Enqueue(q0, |s.received|, e);
    EnqueueBatched(s, q0, e);
    if now {
      var u := s.(received := s.received + [e], queue := None, timeout := false);
      ProcessBatched(u, Settled(s), q);
      ProcessLeaves(u, q);
      SameCalls(s, u, Process(u, q), u.received, Settled(s));
    }
  }

  lemma {:induction false} EnqueueBatched(s: State, q0: Queue, e: Event)
    requires Batched(s) && q0 == if s.queue.Some? then s.queue.value else EMPTY
    ensures var q := Enqueue(q0, |s.received|, e);
      && QueueIsBatch(s.received + [e], Settled(s), q) && NamesOnce(q) && Listed(q)
      && |q.callbacks| == |q0.callbacks| + 1
    ensures InOrder(s.received + [e], Handlers(s.calls))
  {
    hide QueueIsBatch, InOrder, Handlers, NamesOnce;
    EmptyIsBatch(s.received);
    EmptyNamesOnce();
    EnqueueIsBatch(s.received, Settled(s), q0, e);
    EnqueueNamesOnce(q0, |s.received|, e);
    OrderStays(s.received, e, Handlers(s.calls));
  }

  lemma EmptyNamesOnce()
    ensures NamesOnce(EMPTY)
  {
  }

  lemma SameCalls(s: State, u: State, t: State, received: seq<Event>, from: nat)
    requires s.calls == u.calls
    ensures LeadersCalled(s, t, received, from) == LeadersCalled(u, t, received, from)
  {
  }

  lemma OrderStays(received: seq<Event>, e: Event, ids: seq<nat>)
    requires InOrder(received, ids)
    ensures InOrder(received + [e], ids)
  {
    forall i | 0 <= i < |ids|
      ensures KeyspaceOf(received + [e], ids[i]) == KeyspaceOf(received, ids[i])
    {
      assert ids[i] in ids;
    }
  }

  lemma {:induction false} EnqueueNamesOnce(q: Queue, id: nat, e: Event)
    requires NamesOnce(q)
    ensures NamesOnce(Enqueue(q, id, e)) && Listed(Enqueue(q, id, e))
  {
    hide ListedIds;
    var r := WithCallback(q, id, e);
    ListedOnce(q);
    SameKeyspaces([], q, r);
    assert NamesOnce(r);
    if r.mainEvent.None? {
      EnqueueNames(r, id, e);
    }
    ListedOnce(Enqueue(q, id, e));
  }

  lemma {:induction false} NextBatched(s: State, step: Step)
    requires Batched(s) && QueueListed(s) && Enabled(s, step) && (s.timeout <==> s.queue.Some?)
    ensures var t := Next(s, step);
      && Batched(t)
      && if Acts(s, step) then LeadersCalled(s, t, t.received, Settled(s)) && t.queue.None? else t.calls == s.calls
  {
    hide QueueIsBatch, NamesOnce, InOrder, Listed, Process, LeadersCalled;
    match step
    case Received(e, now) => ReceivedBatched(s, e, now);
    case TimerFired =>
      var u := s.(queue := None, timeout := false);
      ProcessBatched(u, Settled(s), s.queue.value);
      ProcessLeaves(u, s.queue.value);
      SameCalls(s, u, Process(u, s.queue.value), s.received, Settled(s));
    case HandlerEnded(i) =>
    case ShutDown =>
  }

  lemma StartBatched()
    ensures Batched(Start())
  {
  }

  lemma TimerPends(s: State)
    requires Inv(s)
    ensures s.timeout <==> s.queue.Some?
  {
  }

  lemma {:induction false} EveryStateBatched(steps: seq<Step>, n: nat)
    requires n <= |steps|
    ensures Batched(After(steps, n))
    decreases n
  {
    hide Batched, Enabled, Next, Inv;
    if n == 0 {
      StartBatched();
    } else {
      EveryStateBatched(steps, n - 1);
      EveryState(steps, n - 1);
      TimerPends(After(steps, n - 1));
      var s := After(steps, n - 1);
      if Enabled(s, steps[n - 1]) {
        NextBatched(s, steps[n - 1]);
      }
    }
  }

  /**
   The handlers called by a step, in every run: none, unless the timer fires or an event is to be acted on
   at once; then exactly those that lead the events received since the queue was last empty.
   */
  lemma {:induction false} HandlersCalled(steps: seq<Step>, n: nat)
    requires n < |steps| && Enabled(After(steps, n), steps[n])
    ensures var s, t := After(steps, n), After(steps, n + 1);
      && 0 <= Settled(s)
      && if Acts(s, steps[n]) then LeadersCalled(s, t, t.received, Settled(s)) && Settled(t) == |t.received|
         else t.calls == s.calls
  {
    hide Batched, Enabled, Next, LeadersCalled, Inv;
    EveryState(steps, n);
    TimerPends(After(steps, n));
    EveryStateBatched(steps, n);
    NextBatched(After(steps, n), steps[n]);
    SettledFrom(After(steps, n));
  }

  lemma SettledFrom(s: State)
    requires Batched(s)
    ensures 0 <= Settled(s)
  {
  }

  /** In every run the handlers of a keyspace's events are called in the order of the events, and so no handler twice. */
  lemma {:induction false} HandlersInOrder(steps: seq<Step>, i: nat, j: nat)
    requires i < j < |After(steps, |steps|).calls|
    ensures var s := After(steps, |steps|);
      var g, h := s.calls[i].handler, s.calls[j].handler;
      && g < |s.received| && h < |s.received|
      && (s.received[g].keyspace == s.received[h].keyspace ==> g < h)
  {
    EveryStateBatched(steps, |steps|);
    var s := After(steps, |steps|);
    var ids := Handlers(s.calls);
    assert ids[i] in ids && ids[j] in ids;
  }

  // ----- Callbacks that no handler precedes -----

  ghost predicate ShutDownWhileQueued(steps: seq<Step>, n: nat, id: nat) {
    n < |steps| && steps[n].ShutDown? && Queued(After(steps, n))[id] > 0
  }

  lemma EmptyListed()
    ensures Listed(EMPTY)
  {
  }

  /** What was invoked before a step stays, and only a shutdown invokes callbacks that follow no handler: the queued ones. */
  ghost predicate InvokesRightly(s: State, step: Step, t: State) {
    && |s.invoked| <= |t.invoked| && t.invoked[..|s.invoked|] == s.invoked
    && forall i :: |s.invoked| <= i < |t.invoked| && t.invoked[i].after.None? ==>
         step.ShutDown? && Queued(s)[t.invoked[i].id] > 0
  }

  lemma {:induction false} NextInvokes(s: State, step: Step)
    requires Inv(s) && QueueListed(s) && Enabled(s, step)
    ensures InvokesRightly(s, step, Next(s, step))
  {
    hide QueueRight, Handed, Serving, JobsServed, InvokedServed, Listed, Process, Enqueue;
    match step
    case Received(e, now) =>
      EmptyListed();
      if now {
        var u := s.(received := s.received + [e], queue := None, timeout := false);
        ProcessInvokes(u, Enqueue(if s.queue.Some? then s.queue.value else EMPTY, |s.received|, e));
      }
    case TimerFired => ProcessInvokes(s.(queue := None, timeout := false), s.queue.value);
    case HandlerEnded(_) =>
    case ShutDown =>
      if s.queue.Some? {
        ShutDownInvokes(s);
      }
  }

  lemma ShutDownInvokes(s: State)
    requires s.queue.Some? && QueueListed(s)
    ensures InvokesRightly(s, ShutDown, Next(s, ShutDown))
  {
    var callbacks, t := s.queue.value.callbacks, Next(s, ShutDown);
    assert t.invoked[..|s.invoked|] == s.invoked;
    forall i | |s.invoked| <= i < |t.invoked|
      ensures Queued(s)[t.invoked[i].id] > 0
    {
      assert t.invoked[i].id == callbacks[i - |s.invoked|];
      assert callbacks[i - |s.invoked|] in multiset(callbacks);
    }
  }

  /** Callbacks are only added, and each after a handler. */
  ghost predicate AddsHandled(before: seq<Invocation>, now: seq<Invocation>) {
    && |before| <= |now| && now[..|before|] == before
    && forall i :: |before| <= i < |now| ==> now[i].after.Some?
  }

  lemma AddsTwice(a: seq<Invocation>, b: seq<Invocation>, c: seq<Invocation>)
    requires AddsHandled(a, b) && AddsHandled(b, c)
    ensures AddsHandled(a, c)
  {
    assert c[..|a|] == c[..|b|][..|a|];
  }

  lemma {:induction false} ProcessInvokes(s: State, q: Queue)
    requires Listed(q)
    ensures AddsHandled(s.invoked, Process(s, q).invoked)
  {
    if q.mainEvent.None? {
      ProcessNamesInvokes(s, q, |q.names|);
    }
  }

  lemma {:induction false} ProcessNamesInvokes(s: State, q: Queue, n: nat)
    requires Listed(q) && n <= |q.names|
    ensures AddsHandled(s.invoked, ProcessNames(s, q, n).invoked)
    decreases n
  {
    if n > 0 {
      var t, k := ProcessNames(s, q, n - 1), q.keyspaces[q.names[n - 1]];
      RunEachInvokes(t, k.events, |k.events|);
      ProcessNamesInvokes(s, q, n - 1);
      AddsTwice(s.invoked, t.invoked, ProcessNames(s, q, n).invoked);
    }
  }

  lemma {:induction false} RunEachInvokes(s: State, events: seq<nat>, n: nat)
    requires n <= |events|
    ensures AddsHandled(s.invoked, RunEach(s, events, n).invoked)
    decreases n
  {
    if n > 0 {
      RunEachInvokes(s, events, n - 1);
    }
  }

  lemma {:induction false} NoneInvoked(steps: seq<Step>, n: nat, i: nat)
    requires n <= |steps| && i < |After(steps, n).invoked| && After(steps, n).invoked[i].after.None?
    ensures exists m :: 0 <= m < n && ShutDownWhileQueued(steps, m, After(steps, n).invoked[i].id)
    decreases n
  {
    hide Inv, Enabled, Next, Queued;
    if n > 0 {
      var s := After(steps, n - 1);
      EveryState(steps, n - 1);
      if Enabled(s, steps[n - 1]) {
        NextInvokes(s, steps[n - 1]);
      }
      if i < |s.invoked| {
        assert After(steps, n).invoked[..|s.invoked|][i] == s.invoked[i];
        NoneInvoked(steps, n - 1, i);
      } else {
        assert ShutDownWhileQueued(steps, n - 1, After(steps, n).invoked[i].id);
      }
    }
  }

  /** In every run, a callback that follows no handler was invoked by a shutdown that found its event in the queue. */
  lemma {:induction false} UnhandledOnlyByShutDown(steps: seq<Step>, i: nat)
    requires i < |After(steps, |steps|).invoked| && After(steps, |steps|).invoked[i].after.None?
    ensures exists m :: 0 <= m < |steps| && ShutDownWhileQueued(steps, m, After(steps, |steps|).invoked[i].id)
  {
    NoneInvoked(steps, |steps|, i);
  }

  lemma {:induction false} InvokedSomewhere(invoked: seq<Invocation>, n: nat, id: nat) returns (i: nat)
    requires n <= |invoked| && InvokedIds(invoked, n)[id] > 0
    ensures i < n && invoked[i].id == id
    decreases n
  {
    if invoked[n - 1].id == id {
      i := n - 1;
    } else {
      i := InvokedSomewhere(invoked, n - 1, id);
    }
  }

  /**
   In every run at rest, without a shutdown while the event was queued, the callback of each event followed
   a handler that covers the event and was called after it had been received.
   */
  lemma {:induction false} EveryEventHandled(steps: seq<Step>, id: nat)
    requires var s := After(steps, |steps|);
      s.queue.None? && s.jobs == [] && id < |s.received|
    requires forall m :: 0 <= m < |steps| ==> !ShutDownWhileQueued(steps, m, id)
    ensures var s := After(steps, |steps|);
      exists i :: 0 <= i < |s.invoked| && s.invoked[i].id == id && s.invoked[i].after.Some?
        && Served(s.received, s.calls, s.invoked[i].after.value, id)
  {
    hide After, Served, ShutDownWhileQueued;
    var s := After(steps, |steps|);
    AllInvokedAtRest(steps, id);
    var i := InvokedSomewhere(s.invoked, |s.invoked|, id);
    if s.invoked[i].after.None? {
      UnhandledOnlyByShutDown(steps, i);
    } else {
      ServedAt(steps, i);
    }
  }

  lemma ServedAt(steps: seq<Step>, i: nat)
    requires i < |After(steps, |steps|).invoked| && After(steps, |steps|).invoked[i].after.Some?
    ensures var s := After(steps, |steps|);
      Served(s.received, s.calls, s.invoked[i].after.value, s.invoked[i].id)
  {
    EveryEventServed(steps, i);
  }
}
