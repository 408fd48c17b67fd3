/** What a run over an array prepares, which errors it keeps and when it stops, said of the events of the run. */
module ArrayExecutorLaws {
  import opened ResultSets
  import opened ArrayExecutor

  /** The query of the item that an event is about. */
  ghost predicate IsAbout<Q, R, E>(c: Config<Q>, events: seq<Event<R, E>>, m: nat, query: Q)
    requires m < |events|
  {
    var w := events[m].w;
    var s := After(c, events, m);
    && w < |s.workers| && c.IndexOf(w, s.workers[w].iteration) < |c.queries|
    && c.queries[c.IndexOf(w, s.workers[w].iteration)] == query
  }

  /** The query has been prepared in the first n events. */
  ghost predicate WasPrepared<Q, R, E>(c: Config<Q>, events: seq<Event<R, E>>, n: nat, query: Q)
    requires n <= |events|
  {
    exists m: nat :: m < n && events[m].Prepared? && IsAbout(c, events, m, query)
  }

  ghost predicate CacheRight<Q(!new), R, E>(c: Config<Q>, events: seq<Event<R, E>>, n: nat)
    requires n <= |events|
  {
    var s := After(c, events, n);
    && (forall q :: q in s.cache <==> WasPrepared(c, events, n, q))
    && forall x <- s.executed :: x < |c.queries| ==> c.queries[x] in s.cache
  }

  /** An event that rejects its worker. */
  predicate Rejects<Q, R, E>(c: Config<Q>, e: Event<R, E>) {
    e.PrepareFailed? || (e.Failed? && c.raiseOnFirstError)
  }

  ghost predicate Raised<Q, R, E>(c: Config<Q>, events: seq<Event<R, E>>, n: nat)
    requires n <= |events|
  {
    c.raiseOnFirstError && exists m: nat :: m < n && events[m].Failed?
  }

  ghost predicate WasRejected<Q, R, E>(c: Config<Q>, events: seq<Event<R, E>>, n: nat, w: nat)
    requires n <= |events|
  {
    exists m: nat :: m < n && events[m].w == w && Rejects(c, events[m])
  }

  ghost predicate RejectedRight<Q, R, E>(c: Config<Q>, events: seq<Event<R, E>>, n: nat)
    requires n <= |events|
  {
    var s := After(c, events, n);
    && (s.stop <==> Raised(c, events, n))
    && forall w: nat :: w < |s.workers| ==> (s.workers[w].phase.Rejected? <==> WasRejected(c, events, n, w))
  }

  /** The errors of executions, in the order in which they ended. */
  function Errors<R, E>(events: seq<Event<R, E>>, n: nat): seq<E>
    requires n <= |events|
  {
    if n == 0 then []
    else if events[n - 1].Failed? then Errors(events, n - 1) + [events[n - 1].err]
    else Errors(events, n - 1)
  }

  // ----- One step -----

  lemma EnterFields<Q, R, E>(c: Config<Q>, s: State<Q, R, E>, w: nat, iteration: nat)
    requires w < |s.workers|
    ensures var t := Enter(c, s, w, iteration);
      && t.cache == s.cache && t.stop == s.stop && t.result == s.result
      && (forall v: nat :: v < |s.workers| && v != w ==> t.workers[v] == s.workers[v])
      && |t.workers| == |s.workers| && t.workers[w].iteration == iteration
      && !t.workers[w].phase.Rejected?
      && (s.stop ==> t.workers[w].phase.Finished? && t.executed == s.executed)
      && (t.workers[w].phase.Preparing? ==> c.IndexOf(w, iteration) < |c.queries| && c.queries[c.IndexOf(w, iteration)] !in s.cache)
      && forall x <- t.executed :: x !in s.executed ==> x < |c.queries| && c.queries[x] in s.cache
  {
  }

  ghost predicate CanStep<Q, R, E>(c: Config<Q>, s: State<Q, R, E>, e: Event<R, E>) {
    |s.workers| == c.Workers() && Enabled(s, e) && c.IndexOf(e.w, s.workers[e.w].iteration) < |c.queries|
  }

  lemma StepFields<Q, R, E>(c: Config<Q>, s: State<Q, R, E>, e: Event<R, E>)
    requires CanStep(c, s, e)
    ensures var t := Step(c, s, e);
      var index := c.IndexOf(e.w, s.workers[e.w].iteration);
      && t.cache == (if e.Prepared? then s.cache + {c.queries[index]} else s.cache)
      && t.stop == (s.stop || (e.Failed? && c.raiseOnFirstError))
      && t.result.errors == (if e.Failed? && |s.result.errors| < c.maxErrors then s.result.errors + [e.err] else s.result.errors)
      && |t.workers| == |s.workers| && (forall v: nat :: v < |s.workers| && v != e.w ==> t.workers[v] == s.workers[v])
      && (t.workers[e.w].phase.Rejected? <==> Rejects(c, e))
      && forall x <- t.executed :: x !in s.executed ==> x < |c.queries| && c.queries[x] in t.cache
  {
    hide Enter, Config.IndexOf;
    var iteration := s.workers[e.w].iteration;
    var index := c.IndexOf(e.w, iteration);
    match e
    case Succeeded(w, rs) =>
      EnterFields(c, s.(result := Add(s.result, index, Success(rs), c.collectResults, c.maxErrors)), w, iteration + 1);
    case Failed(w, err) =>
      EnterFields(c, s.(result := Add(s.result, index, Failure(err), c.collectResults, c.maxErrors)), w, iteration + 1);
    case _ =>
  }

  lemma StepAfterStop<Q, R, E>(c: Config<Q>, s: State<Q, R, E>, e: Event<R, E>)
    requires CanStep(c, s, e) && s.stop && (e.Succeeded? || e.Failed?)
    ensures var t := Step(c, s, e);
      t.executed == s.executed && (t.workers[e.w].phase.Finished? || t.workers[e.w].phase.Rejected?)
  {
  }

  lemma StepPrepares<Q, R, E>(c: Config<Q>, s: State<Q, R, E>, e: Event<R, E>)
    requires CanStep(c, s, e)
    ensures var t := Step(c, s, e);
      var i := t.workers[e.w].iteration;
      t.workers[e.w].phase.Preparing? ==> c.IndexOf(e.w, i) < |c.queries| && c.queries[c.IndexOf(e.w, i)] !in s.cache
  {
  }

  // ----- Every run -----

  lemma Follows<Q, R, E>(c: Config<Q>, events: seq<Event<R, E>>, n: nat)
    requires Run(c, events) && n < |events|
    ensures CanStep(c, After(c, events, n), events[n])
    ensures After(c, events, n + 1) == Step(c, After(c, events, n), events[n])
  {
    EveryState(c, events, n);
    hide Step, Counted, Collected, StopsRight, Launch;
    StepKeeps(c, After(c, events, n), events[n]);
  }

  lemma {:induction false} LaunchFields<Q, R, E>(c: Config<Q>, n: nat)
    requires n <= c.Workers()
    ensures var s: State<Q, R, E> := Launch(c, n);
      s.cache == {} && !s.stop && s.executed == [] && s.result == EmptyGroup()
      && forall w: nat :: w < |s.workers| ==> !s.workers[w].phase.Rejected?
    decreases n
  {
    if n > 0 {
      LaunchFields<Q, R, E>(c, n - 1);
      EnterFields<Q, R, E>(c, Launch(c, n - 1), n - 1, 0);
    }
  }

  lemma PreparedStep<Q, R, E>(c: Config<Q>, events: seq<Event<R, E>>, n: nat, query: Q)
    requires n < |events|
    ensures WasPrepared(c, events, n + 1, query) <==>
      WasPrepared(c, events, n, query) || (events[n].Prepared? && IsAbout(c, events, n, query))
  {
  }

  lemma {:induction false} CacheKept<Q(!new), R, E>(c: Config<Q>, events: seq<Event<R, E>>, n: nat)
    requires Run(c, events) && n < |events| && CacheRight(c, events, n)
    ensures CacheRight(c, events, n + 1)
  {
    hide After, Step, Run, WasPrepared;
    var s, t, e := After(c, events, n), After(c, events, n + 1), events[n];
    Follows(c, events, n);
    StepFields(c, s, e);
    forall q
      ensures q in t.cache <==> WasPrepared(c, events, n + 1, q)
    {
      PreparedStep(c, events, n, q);
    }
  }

  /**
   In every run the cache holds exactly the queries that were prepared, and no item is executed before its
   query is in it.
   */
  lemma {:induction false} ExecutedArePrepared<Q(!new), R, E>(c: Config<Q>, events: seq<Event<R, E>>, n: nat)
    requires Run(c, events) && n <= |events|
    ensures CacheRight(c, events, n)
    decreases n
  {
    hide CacheRight, Run, Launch;
    if n == 0 {
      NothingPrepared(c, events);
    } else {
      ExecutedArePrepared(c, events, n - 1);
      CacheKept(c, events, n - 1);
    }
  }

  lemma NothingPrepared<Q(!new), R, E>(c: Config<Q>, events: seq<Event<R, E>>)
    ensures CacheRight(c, events, 0)
  {
    LaunchFields<Q, R, E>(c, c.Workers());
  }

  /** In every run no item's query is prepared once it has been prepared for another item. */
  lemma {:induction false} PreparedOnce<Q(!new), R, E>(c: Config<Q>, events: seq<Event<R, E>>, n: nat, w: nat)
    requires Run(c, events) && n < |events| && w < c.Workers()
    requires After(c, events, n + 1).workers[w].phase.Preparing?
    requires After(c, events, n).workers[w] != After(c, events, n + 1).workers[w]
    ensures var index := c.IndexOf(w, After(c, events, n + 1).workers[w].iteration);
      index < |c.queries| && !WasPrepared(c, events, n, c.queries[index])
  {
    hide After, Step, Run, WasPrepared, Enabled;
    var s, e := After(c, events, n), events[n];
    ExecutedArePrepared(c, events, n);
    Follows(c, events, n);
    StepFields(c, s, e);
    StepPrepares(c, s, e);
  }

  lemma RejectedStep<Q, R, E>(c: Config<Q>, events: seq<Event<R, E>>, n: nat, w: nat)
    requires n < |events|
    ensures WasRejected(c, events, n + 1, w) <==> WasRejected(c, events, n, w) || (events[n].w == w && Rejects(c, events[n]))
    ensures Raised(c, events, n + 1) <==> Raised(c, events, n) || (events[n].Failed? && c.raiseOnFirstError)
  {
  }

  lemma {:induction false} RejectedKept<Q, R, E>(c: Config<Q>, events: seq<Event<R, E>>, n: nat)
    requires Run(c, events) && n < |events| && RejectedRight(c, events, n)
    ensures RejectedRight(c, events, n + 1)
  {
    hide After, Step, Run, WasRejected, Raised, Rejects;
    var s, t, e := After(c, events, n), After(c, events, n + 1), events[n];
    Follows(c, events, n);
    StepFields(c, s, e);
    RejectedStep(c, events, n, 0);
    forall w: nat | w < |t.workers|
      ensures t.workers[w].phase.Rejected? <==> WasRejected(c, events, n + 1, w)
    {
      RejectedStep(c, events, n, w);
    }
  }

  /**
   In every run the promise of a worker is rejected exactly when a prepare of its item failed or, if errors are
   raised, an execution; and the workers are told to stop exactly when an error was raised.
   */
  lemma {:induction false} RejectedExactly<Q, R, E>(c: Config<Q>, events: seq<Event<R, E>>, n: nat)
    requires Run(c, events) && n <= |events|
    ensures RejectedRight(c, events, n)
    decreases n
  {
    hide RejectedRight, Run, Launch;
    if n == 0 {
      NothingRejected(c, events);
    } else {
      RejectedExactly(c, events, n - 1);
      RejectedKept(c, events, n - 1);
    }
  }

  lemma NothingRejected<Q, R, E>(c: Config<Q>, events: seq<Event<R, E>>)
    ensures RejectedRight(c, events, 0)
  {
    LaunchFields<Q, R, E>(c, c.Workers());
  }

  /** In every run, once an error was raised, no worker whose execution ends takes another item. */
  lemma {:induction false} NoItemAfterError<Q, R, E>(c: Config<Q>, events: seq<Event<R, E>>, n: nat)
    requires Run(c, events) && n < |events| && Raised(c, events, n) && (events[n].Succeeded? || events[n].Failed?)
    ensures var s, t := After(c, events, n), After(c, events, n + 1);
      && t.executed == s.executed
      && events[n].w < |t.workers|
      && (t.workers[events[n].w].phase.Finished? || t.workers[events[n].w].phase.Rejected?)
  {
    hide After, Step, Run, Raised, WasRejected;
    RejectedExactly(c, events, n);
    Follows(c, events, n);
    StepAfterStop(c, After(c, events, n), events[n]);
    StepFields(c, After(c, events, n), events[n]);
  }

  /** In every run the result holds the first errors that occurred, as many as are to be kept. */
  lemma {:induction false} FirstErrorsKept<Q, R, E>(c: Config<Q>, events: seq<Event<R, E>>, n: nat)
    requires Run(c, events) && n <= |events|
    ensures After(c, events, n).result.errors == FirstOf(Errors(events, n), c.maxErrors)
    decreases n
  {
    hide Run, FirstOf, After, Errors, Step;
    if n == 0 {
      NoErrors(c, events);
    } else {
      FirstErrorsKept(c, events, n - 1);
      Follows(c, events, n - 1);
      ErrorsStep(c, After(c, events, n - 1), events, n - 1);
    }
  }

  lemma NoErrors<Q, R, E>(c: Config<Q>, events: seq<Event<R, E>>)
    ensures After(c, events, 0).result.errors == FirstOf(Errors(events, 0), c.maxErrors)
  {
    LaunchFields<Q, R, E>(c, c.Workers());
  }

  lemma ErrorsStep<Q, R, E>(c: Config<Q>, s: State<Q, R, E>, events: seq<Event<R, E>>, n: nat)
    requires n < |events| && CanStep(c, s, events[n]) && s.result.errors == FirstOf(Errors(events, n), c.maxErrors)
    ensures Step(c, s, events[n]).result.errors == FirstOf(Errors(events, n + 1), c.maxErrors)
  {
    hide FirstOf, Step, Enabled;
    StepFields(c, s, events[n]);
    FirstOfGrows(Errors(events, n + 1), c.maxErrors);
    var before := Errors(events, n);
    if events[n].Failed? {
      assert Errors(events, n + 1) == before + [events[n].err];
    }
  }

  lemma FirstOfGrows<E>(errors: seq<E>, max: nat)
    ensures errors == [] ==> FirstOf(errors, max) == []
    ensures errors != [] ==>
      var before := FirstOf(errors[..|errors| - 1], max);
      FirstOf(errors, max) == if |before| < max then before + [errors[|errors| - 1]] else before
  {
    if errors != [] {
      var init := errors[..|errors| - 1];
      assert errors == init + [errors[|errors| - 1]];
      assert |init| >= max ==> errors[..max] == init[..max];
    }
  }

  lemma {:induction false} RunningAtMost(workers: seq<Worker>, n: nat)
    requires n <= |workers|
    ensures Running(workers, n) <= n
    decreases n
  {
    if n > 0 {
      RunningAtMost(workers, n - 1);
    }
  }

  lemma {:induction false} AllLaunched<Q, R, E>(c: Config<Q>, n: nat)
    requires n <= c.Workers()
    ensures var s: State<Q, R, E> := Launch(c, n);
      s.cache == {} && !s.stop
      && forall w: nat :: w < |s.workers| ==>
           s.workers[w] == if w < n then Worker(0, Preparing) else Worker(0, NotStarted)
    decreases n
  {
    if n > 0 {
      AllLaunched<Q, R, E>(c, n - 1);
    }
  }

  /**
   There are as many workers as the level says and there are items; at the start each prepares its own item, and
   in no state of any run are more executions going on.
   */
  lemma {:induction false} LevelIsKept<Q, R, E>(c: Config<Q>, events: seq<Event<R, E>>, n: nat)
    requires n <= |events|
    ensures var s, count := After(c, events, n), if c.level < |c.queries| then c.level else |c.queries|;
      && |s.workers| == count && Running(s.workers, count) <= count
      && forall w: nat :: w < count ==> After(c, events, 0).workers[w] == Worker(0, Preparing) && c.IndexOf(w, 0) == w
  {
    RunningAtMost(After(c, events, n).workers, c.Workers());
    AllLaunched<Q, R, E>(c, c.Workers());
    hide Running, Launch;
    assert After(c, events, 0) == Launch<Q, R, E>(c, c.Workers());
  }
}
