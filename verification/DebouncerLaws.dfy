/** What the debouncer guarantees over every run of events, timers, ended handlers and shutdowns. */
module DebouncerLaws {
  import opened Debouncing
  import opened Wrappers

  // ----- Where every callback is -----

  function Upto(n: nat): multiset<nat> {
    if n == 0 then multiset{} else Upto(n - 1) + multiset{n - 1}
  }

  lemma {:induction false} UptoOnce(n: nat, id: nat)
    ensures Upto(n)[id] == if id < n then 1 else 0
    decreases n
  {
    if n > 0 {
      UptoOnce(n - 1, id);
    }
  }

  function InvokedIds(invoked: seq<Invocation>, n: nat): multiset<nat>
    requires n <= |invoked|
  {
    if n == 0 then multiset{} else InvokedIds(invoked, n - 1) + multiset{invoked[n - 1].id}
  }

  function JobIds(jobs: seq<Job>, n: nat): multiset<nat>
    requires n <= |jobs|
  {
    if n == 0 then multiset{} else JobIds(jobs, n - 1) + multiset(jobs[n - 1].callbacks)
  }

  /** The callbacks invoked and those that wait for a handler to end. */
  function Handed(s: State): multiset<nat> {
    InvokedIds(s.invoked, |s.invoked|) + JobIds(s.jobs, |s.jobs|)
  }

  function Queued(s: State): multiset<nat> {
    if s.queue.None? then multiset{} else multiset(s.queue.value.callbacks)
  }

  /** The events listed under the first n keyspaces. */
  function ListedIds(q: Queue, n: nat): multiset<nat>
    requires n <= |q.names| && Listed(q)
  {
    if n == 0 then multiset{} else ListedIds(q, n - 1) + multiset(q.keyspaces[q.names[n - 1]].events)
  }

  ghost predicate NamesOnce(q: Queue) {
    && Listed(q) && (forall name <- q.keyspaces.Keys :: name in q.names)
    && forall i, j :: 0 <= i < j < |q.names| ==> q.names[i] != q.names[j]
  }

  ghost predicate RefreshesKeyspace(received: seq<Event>, name: string, m: nat) {
    m < |received| && received[m].keyspace == name && received[m].wholeKeyspace
  }

  /** The events under a keyspace belong to it, and its main event refreshes all of it. */
  ghost predicate KeyspaceRight(received: seq<Event>, name: string, k: KeyspaceEvents) {
    && (forall id <- k.events :: id < |received| && received[id].keyspace == name)
    && (k.mainEvent.Some? ==> RefreshesKeyspace(received, name, k.mainEvent.value))
  }

  ghost predicate KeyspacesRight(received: seq<Event>, q: Queue) {
    forall name <- q.keyspaces.Keys :: KeyspaceRight(received, name, q.keyspaces[name])
  }

  ghost predicate QueueRight(received: seq<Event>, q: Queue) {
    && NamesOnce(q)
    && (forall id <- q.callbacks :: id < |received|)
    && KeyspacesRight(received, q)
    && (q.mainEvent.Some? ==> q.mainEvent.value < |received| && received[q.mainEvent.value].all)
    && (q.mainEvent.None? ==> multiset(q.callbacks) == ListedIds(q, |q.names|))
  }

  /** An event is covered by its own handler, by one that refreshes its keyspace and by one that refreshes everything. */
  ghost predicate Covers(received: seq<Event>, h: nat, id: nat) {
    && h < |received| && id < |received|
    && (h == id || received[h].all || (received[h].wholeKeyspace && received[h].keyspace == received[id].keyspace))
  }

  /** The handler was called when the event had been received already. */
  ghost predicate CalledAfter(calls: seq<Call>, h: nat, id: nat) {
    exists k :: 0 <= k < |calls| && calls[k].handler == h && id < calls[k].received
  }

  ghost predicate Served(received: seq<Event>, calls: seq<Call>, h: nat, id: nat) {
    Covers(received, h, id) && CalledAfter(calls, h, id)
  }

  ghost predicate JobsServed(s: State) {
    forall i, id :: 0 <= i < |s.jobs| && id in s.jobs[i].callbacks ==> Served(s.received, s.calls, s.jobs[i].handler, id)
  }

  ghost predicate InvokedServed(s: State) {
    forall i :: 0 <= i < |s.invoked| && s.invoked[i].after.Some? ==>
      Served(s.received, s.calls, s.invoked[i].after.value, s.invoked[i].id)
  }

  ghost predicate Inv(s: State) {
    && (s.timeout <==> s.queue.Some?)
    && (s.queue.Some? ==> QueueRight(s.received, s.queue.value))
    && Handed(s) + Queued(s) == Upto(|s.received|)
    && JobsServed(s) && InvokedServed(s)
  }

  // ----- Adding an event -----

  lemma {:induction false} ListedIdsSame(q: Queue, r: Queue, n: nat)
    requires Listed(q) && Listed(r) && n <= |q.names| && n <= |r.names|
    requires forall i :: 0 <= i < n ==> r.names[i] == q.names[i] && r.keyspaces[q.names[i]].events == q.keyspaces[q.names[i]].events
    ensures ListedIds(r, n) == ListedIds(q, n)
    decreases n
  {
    if n > 0 {
      ListedIdsSame(q, r, n - 1);
    }
  }

  /** One more event under the i-th keyspace, which is already listed. */
  lemma {:induction false} ListedIdsGrow(q: Queue, r: Queue, i: nat, id: nat, n: nat)
    requires Listed(q) && Listed(r) && i < n <= |q.names| && r.names == q.names
    requires forall j :: 0 <= j < |q.names| && j != i ==> r.keyspaces[q.names[j]].events == q.keyspaces[q.names[j]].events
    requires r.keyspaces[q.names[i]].events == q.keyspaces[q.names[i]].events + [id]
    ensures ListedIds(r, n) == ListedIds(q, n) + multiset{id}
    decreases n
  {
    if n - 1 == i {
      ListedIdsSame(q, r, n - 1);
    } else {
      ListedIdsGrow(q, r, i, id, n - 1);
    }
  }

  lemma {:induction false} EnqueueLists(q: Queue, id: nat, e: Event)
    requires NamesOnce(q)
    ensures var r := WithKeyspaceEvent(q, id, e);
      Listed(r) && ListedIds(r, |r.names|) == ListedIds(q, |q.names|) + multiset{id}
  {
    if e.keyspace in q.keyspaces {
      EnqueueKnown(q, id, e);
    } else {
      ListedIdsSame(q, WithKeyspaceEvent(q, id, e), |q.names|);
    }
  }

  lemma {:induction false} EnqueueKnown(q: Queue, id: nat, e: Event)
    requires NamesOnce(q) && e.keyspace in q.keyspaces
    ensures var r := WithKeyspaceEvent(q, id, e);
      Listed(r) && ListedIds(r, |r.names|) == ListedIds(q, |q.names|) + multiset{id}
  {
    hide ListedIds;
    assert e.keyspace in q.keyspaces.Keys;
    var i :| 0 <= i < |q.names| && q.names[i] == e.keyspace;
    ListedIdsGrow(q, WithKeyspaceEvent(q, id, e), i, id, |q.names|);
  }

  lemma EnqueueNames(q: Queue, id: nat, e: Event)
    requires NamesOnce(q)
    ensures NamesOnce(WithKeyspaceEvent(q, id, e))
  {
    var r := WithKeyspaceEvent(q, id, e);
    forall name <- r.keyspaces.Keys
      ensures name in r.names
    {
      if name == e.keyspace {
        assert name in q.keyspaces ==> name in q.keyspaces.Keys;
        assert name !in q.keyspaces ==> r.names[|q.names|] == name;
      } else {
        assert name in q.keyspaces.Keys;
        assert r.names == q.names || r.names == q.names + [e.keyspace];
      }
    }
    assert e.keyspace !in q.keyspaces ==> e.keyspace !in q.names;
  }

  lemma KeyspaceStays(received: seq<Event>, e: Event, name: string, k: KeyspaceEvents)
    requires KeyspaceRight(received, name, k)
    ensures KeyspaceRight(received + [e], name, k)
  {
  }

  lemma {:induction false} KeyspacesStay(received: seq<Event>, e: Event, q: Queue)
    requires KeyspacesRight(received, q)
    ensures KeyspacesRight(received + [e], q)
  {
    hide KeyspaceRight;
    forall name <- q.keyspaces.Keys
      ensures KeyspaceRight(received + [e], name, q.keyspaces[name])
    {
      KeyspaceStays(received, e, name, q.keyspaces[name]);
    }
  }

  lemma KeyspaceGrows(received: seq<Event>, e: Event, k: KeyspaceEvents)
    requires KeyspaceRight(received, e.keyspace, k)
    ensures KeyspaceRight(received + [e], e.keyspace,
      KeyspaceEvents(k.events + [|received|], if e.wholeKeyspace then Some(|received|) else k.mainEvent))
  {
  }

  lemma {:induction false} KeyspacesGrow(received: seq<Event>, e: Event, q: Queue)
    requires KeyspacesRight(received, q)
    ensures KeyspacesRight(received + [e], WithKeyspaceEvent(q, |received|, e))
  {
    KeyspacesStay(received, e, q);
    var r := WithKeyspaceEvent(q, |received|, e);
    var k := if e.keyspace in q.keyspaces then q.keyspaces[e.keyspace] else KeyspaceEvents([], None);
    assert KeyspaceRight(received, e.keyspace, k) by {
      assert e.keyspace in q.keyspaces ==> e.keyspace in q.keyspaces.Keys;
    }
    KeyspaceGrows(received, e, k);
    hide KeyspaceRight;
    forall name <- r.keyspaces.Keys
      ensures KeyspaceRight(received + [e], name, r.keyspaces[name])
    {
      assert name != e.keyspace ==> name in q.keyspaces.Keys;
    }
  }

  lemma {:induction false} EnqueueRight(received: seq<Event>, q: Queue, e: Event)
    requires QueueRight(received, q)
    ensures QueueRight(received + [e], Enqueue(q, |received|, e))
    ensures Enqueue(q, |received|, e).callbacks == q.callbacks + [|received|]
  {
    hide NamesOnce, ListedIds, KeyspacesRight;
    var id := |received|;
    var r := WithCallback(q, id, e);
    OnceIsListed(q);
    SameKeyspaces(received, q, r);
    if r.mainEvent.Some? {
      KeyspacesStay(received, e, r);
    } else {
      EnqueueLists(r, id, e);
      EnqueueNames(r, id, e);
      KeyspacesGrow(received, e, r);
    }
  }

  lemma OnceIsListed(q: Queue)
    requires NamesOnce(q)
    ensures Listed(q)
  {
  }

  lemma SameKeyspaces(received: seq<Event>, q: Queue, r: Queue)
    requires r.names == q.names && r.keyspaces == q.keyspaces && Listed(q)
    ensures KeyspacesRight(received, q) == KeyspacesRight(received, r) && NamesOnce(q) == NamesOnce(r)
    ensures ListedIds(q, |q.names|) == ListedIds(r, |r.names|)
  {
    ListedIdsSame(q, r, |q.names|);
  }

  // ----- Acting on a queue -----

  lemma {:induction false} JobIdsSame(a: seq<Job>, b: seq<Job>, n: nat)
    requires n <= |a| && n <= |b| && forall i :: 0 <= i < n ==> a[i] == b[i]
    ensures JobIds(a, n) == JobIds(b, n)
    decreases n
  {
    if n > 0 {
      JobIdsSame(a, b, n - 1);
    }
  }

  lemma {:induction false} InvokedIdsSame(a: seq<Invocation>, b: seq<Invocation>, n: nat)
    requires n <= |a| && n <= |b| && forall i :: 0 <= i < n ==> a[i] == b[i]
    ensures InvokedIds(a, n) == InvokedIds(b, n)
    decreases n
  {
    if n > 0 {
      InvokedIdsSame(a, b, n - 1);
    }
  }

  lemma {:induction false} StartJobHands(s: State, h: nat, callbacks: seq<nat>)
    ensures Handed(StartJob(s, h, callbacks)) == Handed(s) + multiset(callbacks)
  {
    JobIdsSame(s.jobs, StartJob(s, h, callbacks).jobs, |s.jobs|);
  }

  lemma {:induction false} InvokeHands(s: State, calls: seq<Call>, x: Invocation)
    ensures Handed(s.(calls := calls, invoked := s.invoked + [x])) == Handed(s) + multiset{x.id}
  {
    InvokedIdsSame(s.invoked, s.invoked + [x], |s.invoked|);
  }

  lemma {:induction false} RunEachHands(s: State, events: seq<nat>, n: nat)
    requires n <= |events|
    ensures Handed(RunEach(s, events, n)) == Handed(s) + multiset(events[..n])
    decreases n
  {
    hide Handed;
    assert events[..0] == [];
    if n > 0 {
      var before := RunEach(s, events, n - 1);
      RunEachHands(s, events, n - 1);
      InvokeHands(before, RunEach(s, events, n).calls, Invocation(events[n - 1], Some(events[n - 1])));
      assert events[..n] == events[..n - 1] + [events[n - 1]];
    }
  }

  lemma {:induction false} ProcessKeyspaceHands(s: State, k: KeyspaceEvents)
    ensures Handed(ProcessKeyspace(s, k)) == Handed(s) + multiset(k.events)
  {
    hide Handed, StartJob, RunEach;
    if k.mainEvent.Some? {
      StartJobHands(s, k.mainEvent.value, k.events);
    } else {
      RunEachHands(s, k.events, |k.events|);
      assert k.events[..|k.events|] == k.events;
    }
  }

  lemma {:induction false} ProcessNamesHands(s: State, q: Queue, n: nat)
    requires Listed(q) && n <= |q.names|
    ensures Handed(ProcessNames(s, q, n)) == Handed(s) + ListedIds(q, n)
    decreases n
  {
    hide Handed, ProcessKeyspace;
    if n > 0 {
      ProcessNamesHands(s, q, n - 1);
      ProcessKeyspaceHands(ProcessNames(s, q, n - 1), q.keyspaces[q.names[n - 1]]);
    }
  }

  /** What was called stays called. */
  lemma CallsGrow(received: seq<Event>, calls: seq<Call>, call: Call, h: nat, id: nat)
    requires Served(received, calls, h, id)
    ensures Served(received, calls + [call], h, id)
  {
    var k :| 0 <= k < |calls| && calls[k].handler == h && id < calls[k].received;
    assert (calls + [call])[k] == calls[k];
  }

  lemma ReceivedGrow(received: seq<Event>, e: Event, calls: seq<Call>, h: nat, id: nat)
    requires Served(received, calls, h, id)
    ensures Served(received + [e], calls, h, id)
  {
  }

  /** A handler called now serves every event received so far that it covers. */
  lemma ServedNow(s: State, h: nat, id: nat)
    requires Covers(s.received, h, id)
    ensures Served(s.received, CallHandler(s, h).calls, h, id)
  {
    assert CallHandler(s, h).calls[|s.calls|] == Call(h, |s.received|);
  }

  ghost predicate Serving(s: State) {
    JobsServed(s) && InvokedServed(s)
  }

  lemma {:induction false} CallServing(s: State, h: nat)
    requires Serving(s)
    ensures Serving(CallHandler(s, h))
  {
    var t := CallHandler(s, h);
    hide Served;
    forall i, id | 0 <= i < |t.jobs| && id in t.jobs[i].callbacks
      ensures Served(t.received, t.calls, t.jobs[i].handler, id)
    {
      CallsGrow(s.received, s.calls, Call(h, |s.received|), t.jobs[i].handler, id);
    }
    forall i | 0 <= i < |t.invoked| && t.invoked[i].after.Some?
      ensures Served(t.received, t.calls, t.invoked[i].after.value, t.invoked[i].id)
    {
      CallsGrow(s.received, s.calls, Call(h, |s.received|), t.invoked[i].after.value, t.invoked[i].id);
    }
  }

  lemma {:induction false} StartJobServing(s: State, h: nat, callbacks: seq<nat>)
    requires Serving(s) && forall id <- callbacks :: Covers(s.received, h, id)
    ensures Serving(StartJob(s, h, callbacks))
  {
    CallServing(s, h);
    forall id <- callbacks
      ensures Served(s.received, CallHandler(s, h).calls, h, id)
    {
      ServedNow(s, h, id);
    }
    hide Served, Covers;
  }

  lemma {:induction false} RunEachServing(s: State, events: seq<nat>, n: nat)
    requires Serving(s) && n <= |events| && forall id <- events :: id < |s.received|
    ensures Serving(RunEach(s, events, n))
    ensures RunEach(s, events, n).received == s.received
    decreases n
  {
    if n > 0 {
      var t, id := RunEach(s, events, n - 1), events[n - 1];
      RunEachServing(s, events, n - 1);
      assert id in events;
      CallServing(t, id);
      ServedNow(t, id, id);
      hide Served;
    }
  }

  lemma {:induction false} ProcessKeyspaceServing(s: State, name: string, k: KeyspaceEvents)
    requires Serving(s) && KeyspaceRight(s.received, name, k)
    ensures Serving(ProcessKeyspace(s, k)) && ProcessKeyspace(s, k).received == s.received
  {
    hide Serving;
    if k.mainEvent.Some? {
      StartJobServing(s, k.mainEvent.value, k.events);
    } else {
      RunEachServing(s, k.events, |k.events|);
    }
  }

  lemma {:induction false} ProcessNamesServing(s: State, q: Queue, n: nat)
    requires Serving(s) && QueueRight(s.received, q) && n <= |q.names|
    ensures Serving(ProcessNames(s, q, n)) && ProcessNames(s, q, n).received == s.received
    decreases n
  {
    hide Serving, ProcessKeyspace, KeyspaceRight, ListedIds;
    if n > 0 {
      ProcessNamesServing(s, q, n - 1);
      var name := q.names[n - 1];
      assert name in q.keyspaces.Keys;
      ProcessKeyspaceServing(ProcessNames(s, q, n - 1), name, q.keyspaces[name]);
    }
  }

  /** Processing a queue hands over all its callbacks, and every event is served. */
  lemma {:induction false} ProcessKeeps(s: State, q: Queue)
    requires Serving(s) && QueueRight(s.received, q)
    ensures Serving(Process(s, q)) && Handed(Process(s, q)) == Handed(s) + multiset(q.callbacks)
    ensures Process(s, q).received == s.received && Process(s, q).queue == s.queue && Process(s, q).timeout == s.timeout
  {
    ProcessLeaves(s, q);
    hide Serving, Handed;
    if q.mainEvent.Some? {
      StartJobServing(s, q.mainEvent.value, q.callbacks);
      StartJobHands(s, q.mainEvent.value, q.callbacks);
    } else {
      ProcessNamesServing(s, q, |q.names|);
      ProcessNamesHands(s, q, |q.names|);
    }
  }

  lemma {:induction false} RunEachLeaves(s: State, events: seq<nat>, n: nat)
    requires n <= |events|
    ensures RunEach(s, events, n).queue == s.queue && RunEach(s, events, n).timeout == s.timeout
    ensures RunEach(s, events, n).received == s.received
    decreases n
  {
    if n > 0 {
      RunEachLeaves(s, events, n - 1);
    }
  }

  lemma {:induction false} ProcessNamesLeaves(s: State, q: Queue, n: nat)
    requires Listed(q) && n <= |q.names|
    ensures ProcessNames(s, q, n).queue == s.queue && ProcessNames(s, q, n).timeout == s.timeout
    ensures ProcessNames(s, q, n).received == s.received
    decreases n
  {
    if n > 0 {
      ProcessNamesLeaves(s, q, n - 1);
      var k := q.keyspaces[q.names[n - 1]];
      RunEachLeaves(ProcessNames(s, q, n - 1), k.events, |k.events|);
    }
  }

  lemma ProcessLeaves(s: State, q: Queue)
    requires Listed(q)
    ensures Process(s, q).received == s.received && Process(s, q).queue == s.queue && Process(s, q).timeout == s.timeout
  {
    ProcessNamesLeaves(s, q, |q.names|);
  }

  // ----- Ending handlers and shutting down -----

  lemma {:induction false} InvokeAllHands(s: State, callbacks: seq<nat>, after: Option<nat>, n: nat)
    requires n <= |callbacks|
    ensures var t := InvokeAll(s, callbacks, after);
      InvokedIds(t.invoked, |s.invoked| + n) == InvokedIds(s.invoked, |s.invoked|) + multiset(callbacks[..n])
    decreases n
  {
    var t := InvokeAll(s, callbacks, after);
    if n == 0 {
      InvokedIdsSame(s.invoked, t.invoked, |s.invoked|);
    } else {
      InvokeAllHands(s, callbacks, after, n - 1);
      assert callbacks[..n] == callbacks[..n - 1] + [callbacks[n - 1]];
    }
  }

  lemma JobIdsStep(jobs: seq<Job>, n: nat)
    requires 0 < n <= |jobs|
    ensures JobIds(jobs, n) == JobIds(jobs, n - 1) + multiset(jobs[n - 1].callbacks)
  {
  }

  lemma {:induction false} JobIdsWithout(jobs: seq<Job>, rest: seq<Job>, i: nat, n: nat)
    requires i < n <= |jobs| == |rest| + 1
    requires forall k :: 0 <= k < |rest| ==> rest[k] == jobs[if k < i then k else k + 1]
    ensures JobIds(rest, n - 1) + multiset(jobs[i].callbacks) == JobIds(jobs, n)
    decreases n
  {
    hide JobIds;
    JobIdsStep(jobs, n);
    if n - 1 == i {
      JobIdsSame(jobs, rest, i);
    } else {
      JobIdsStep(rest, n - 1);
      JobIdsWithout(jobs, rest, i, n - 1);
    }
  }

  lemma {:induction false} InvokedHands(s: State, callbacks: seq<nat>, after: Option<nat>)
    ensures Handed(InvokeAll(s, callbacks, after)) == Handed(s) + multiset(callbacks)
  {
    hide InvokedIds, JobIds;
    InvokeAllHands(s, callbacks, after, |callbacks|);
    assert callbacks[..|callbacks|] == callbacks;
  }

  lemma {:induction false} JobHands(s: State, i: nat)
    requires i < |s.jobs|
    ensures Handed(s.(jobs := s.jobs[..i] + s.jobs[i + 1..])) + multiset(s.jobs[i].callbacks) == Handed(s)
  {
    hide InvokedIds, JobIds;
    JobIdsWithout(s.jobs, s.jobs[..i] + s.jobs[i + 1..], i, |s.jobs|);
  }

  lemma {:induction false} JobRemoved(s: State, i: nat)
    requires Serving(s) && i < |s.jobs|
    ensures Serving(s.(jobs := s.jobs[..i] + s.jobs[i + 1..]))
  {
    hide Served;
    var t := s.(jobs := s.jobs[..i] + s.jobs[i + 1..]);
    forall k, id | 0 <= k < |t.jobs| && id in t.jobs[k].callbacks
      ensures Served(t.received, t.calls, t.jobs[k].handler, id)
    {
      assert t.jobs[k] == s.jobs[if k < i then k else k + 1];
    }
  }

  lemma {:induction false} InvokedServing(s: State, callbacks: seq<nat>, after: Option<nat>)
    requires Serving(s)
    requires after.Some? ==> forall id <- callbacks :: Served(s.received, s.calls, after.value, id)
    ensures Serving(InvokeAll(s, callbacks, after))
  {
    hide Served;
    var t := InvokeAll(s, callbacks, after);
    forall k | 0 <= k < |t.invoked| && t.invoked[k].after.Some?
      ensures Served(t.received, t.calls, t.invoked[k].after.value, t.invoked[k].id)
    {
      if k < |s.invoked| {
        assert t.invoked[k] == s.invoked[k];
      } else {
        assert t.invoked[k].id in callbacks;
      }
    }
  }

  lemma {:induction false} HandlerEndedKeeps(s: State, i: nat)
    requires Inv(s) && QueueListed(s) && i < |s.jobs|
    ensures Inv(Next(s, HandlerEnded(i)))
  {
    var job := s.jobs[i];
    var u := s.(jobs := s.jobs[..i] + s.jobs[i + 1..]);
    ServingIs(s);
    JobHands(s, i);
    JobRemoved(s, i);
    assert forall id <- job.callbacks :: Served(s.received, s.calls, job.handler, id);
    hide QueueRight, Served, Handed, Serving, JobsServed, InvokedServed;
    InvokedHands(u, job.callbacks, Some(job.handler));
    InvokedServing(u, job.callbacks, Some(job.handler));
    ServingIs(Next(s, HandlerEnded(i)));
  }

  lemma {:induction false} ShutDownKeeps(s: State)
    requires Inv(s) && QueueListed(s)
    ensures Inv(Next(s, ShutDown))
  {
    hide QueueRight, Handed, Serving, JobsServed, InvokedServed, Listed;
    if s.queue.Some? {
      var callbacks := s.queue.value.callbacks;
      var t := InvokeAll(s, callbacks, None);
      ServingIs(s);
      InvokedHands(s, callbacks, None);
      InvokedServing(s, callbacks, None);
      ServingOfFields(t, Next(s, ShutDown));
      ServingIs(Next(s, ShutDown));
    }
  }

  lemma ServingOfFields(s: State, t: State)
    requires t == s.(queue := t.queue, timeout := t.timeout)
    ensures Serving(s) == Serving(t) && Handed(s) == Handed(t)
  {
  }

  lemma {:induction false} ReceivedKeeps(s: State, e: Event, now: bool)
    requires Inv(s) && QueueListed(s)
    ensures Inv(Next(s, Received(e, now)))
  {
    hide QueueRight, Handed, Serving, JobsServed, InvokedServed, Listed, Enqueue, Process;
    var q0 := if s.queue.Some? then s.queue.value else EMPTY;
    var t := s.(received := s.received + [e]);
    var q := Enqueue(q0, |s.received|, e);
    EmptyRight(s.received);
    EnqueueRight(s.received, q0, e);
    ServingIs(s);
    ReceivedServing(s, t, e);
    ReceivedHands(s, t);
    assert multiset(q.callbacks) == Queued(s) + multiset{|s.received|};
    var r := Next(s, Received(e, now));
    ServingIs(r);
    if now {
      var u := t.(queue := None, timeout := false);
      ServingOfFields(t, u);
      ProcessKeeps(u, q);
    } else {
      ServingOfFields(t, r);
    }
  }

  lemma ReceivedHands(s: State, t: State)
    requires t == s.(received := t.received)
    ensures Handed(t) == Handed(s)
  {
  }

  lemma ServingIs(s: State)
    ensures Serving(s) <==> JobsServed(s) && InvokedServed(s)
  {
  }

  lemma EmptyRight(received: seq<Event>)
    ensures QueueRight(received, EMPTY)
  {
  }

  lemma {:induction false} ReceivedServing(s: State, t: State, e: Event)
    requires Serving(s) && t == s.(received := s.received + [e], queue := t.queue, timeout := t.timeout)
    ensures Serving(t)
  {
    hide Served;
    forall i, id | 0 <= i < |t.jobs| && id in t.jobs[i].callbacks
      ensures Served(t.received, t.calls, t.jobs[i].handler, id)
    {
      ReceivedGrow(s.received, e, s.calls, s.jobs[i].handler, id);
    }
    forall i | 0 <= i < |t.invoked| && t.invoked[i].after.Some?
      ensures Served(t.received, t.calls, t.invoked[i].after.value, t.invoked[i].id)
    {
      ReceivedGrow(s.received, e, s.calls, s.invoked[i].after.value, s.invoked[i].id);
    }
  }

  lemma {:induction false} TimerKeeps(s: State)
    requires Inv(s) && QueueListed(s) && s.timeout
    ensures Inv(Next(s, TimerFired))
  {
    hide QueueRight, Handed, Serving, JobsServed, InvokedServed, Listed, Process;
    var t := s.(queue := None, timeout := false);
    ServingIs(s);
    ServingOfFields(s, t);
    ProcessKeeps(t, s.queue.value);
    ServingIs(Next(s, TimerFired));
  }

  // ----- Every run -----

  lemma {:induction false} NextKeeps(s: State, step: Step)
    requires Inv(s) && Enabled(s, step)
    ensures QueueListed(s) && Inv(Next(s, step))
  {
    assert QueueListed(s);
    hide Inv, Next;
    match step
    case Received(e, now) => ReceivedKeeps(s, e, now);
    case TimerFired => TimerKeeps(s);
    case HandlerEnded(i) => HandlerEndedKeeps(s, i);
    case ShutDown => ShutDownKeeps(s);
  }

  /** The state after the first n steps; a step that cannot happen changes nothing. */
  function After(steps: seq<Step>, n: nat): State
    requires n <= |steps|
  {
    if n == 0 then Start()
    else
      var s := After(steps, n - 1);
      if Enabled(s, steps[n - 1]) && QueueListed(s) then Next(s, steps[n - 1]) else s
  }

  lemma {:induction false} EveryState(steps: seq<Step>, n: nat)
    requires n <= |steps|
    ensures Inv(After(steps, n)) && QueueListed(After(steps, n))
    decreases n
  {
    if n == 0 {
      assert Inv(Start());
    } else {
      EveryState(steps, n - 1);
      hide Inv, Enabled, Next;
      var s := After(steps, n - 1);
      if Enabled(s, steps[n - 1]) {
        NextKeeps(s, steps[n - 1]);
      }
      InvListed(After(steps, n));
    }
  }

  lemma InvListed(s: State)
    requires Inv(s)
    ensures QueueListed(s)
  {
  }

  /**
   In every run each event's callback is in exactly one place: invoked once, waiting for a running handler,
   or queued; and a timer is pending exactly when there is a queue.
   */
  lemma {:induction false} EveryCallbackOnce(steps: seq<Step>, id: nat)
    ensures var s := After(steps, |steps|);
      && InvokedIds(s.invoked, |s.invoked|)[id] + JobIds(s.jobs, |s.jobs|)[id] + Queued(s)[id] == (if id < |s.received| then 1 else 0)
      && (s.timeout <==> s.queue.Some?)
  {
    EveryState(steps, |steps|);
    UptoOnce(|After(steps, |steps|).received|, id);
  }

  /** When nothing is queued and no handler runs, every callback has been invoked exactly once. */
  lemma {:induction false} AllInvokedAtRest(steps: seq<Step>, id: nat)
    requires var s := After(steps, |steps|);
      s.queue.None? && s.jobs == [] && id < |s.received|
    ensures var s := After(steps, |steps|);
      InvokedIds(s.invoked, |s.invoked|)[id] == 1
  {
    EveryCallbackOnce(steps, id);
  }

  /**
   Every callback not invoked by a shutdown follows a handler that covers its event and that was called
   after the event had been received.
   */
  lemma {:induction false} EveryEventServed(steps: seq<Step>, i: nat)
    requires i < |After(steps, |steps|).invoked| && After(steps, |steps|).invoked[i].after.Some?
    ensures var s := After(steps, |steps|);
      var x := s.invoked[i];
      Covers(s.received, x.after.value, x.id) && CalledAfter(s.calls, x.after.value, x.id)
  {
    EveryState(steps, |steps|);
  }
}
