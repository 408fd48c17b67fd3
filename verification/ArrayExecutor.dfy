/**
 Execution of an array of queries by a number of workers, each taking every n-th item
 (`ArrayBasedExecutor` in lib/concurrent/index.js).
 */
module ArrayExecutor {
  import opened ResultSets

  /** The query of each item, the number of workers asked for, and the options in effect. */
  datatype Config<Q> = Config(queries: seq<Q>, level: nat, raiseOnFirstError: bool, collectResults: bool, maxErrors: nat)
  {
    /** No more workers than items. */
    function Workers(): nat {
      if level < |queries| then level else |queries|
    }

    function IndexOf(worker: nat, iteration: nat): nat {
      worker + Workers() * iteration
    }
  }

  /** Where a worker stands with the item of its current iteration. */
  datatype Phase = NotStarted | Preparing | Executing | Finished | Rejected

  datatype Worker = Worker(iteration: nat, phase: Phase)

  datatype State<Q, R, E> = State(stop: bool, cache: set<Q>, result: Group<R, E>, workers: seq<Worker>, executed: seq<nat>)

  datatype Event<R, E> =
    | Prepared(w: nat)
    | PrepareFailed(w: nat)
    | Succeeded(w: nat, rs: R)
    | Failed(w: nat, err: E)

  /** `_executeOneAtATime`: the next item of a worker, executed at once if its query has been prepared before. */
  function Enter<Q(==), R, E>(c: Config<Q>, s: State<Q, R, E>, w: nat, iteration: nat): State<Q, R, E>
    requires w < |s.workers|
  {
    var index := c.IndexOf(w, iteration);
    if index >= |c.queries| || s.stop then s.(workers := s.workers[w := Worker(iteration, Finished)])
    else if c.queries[index] in s.cache then
      s.(workers := s.workers[w := Worker(iteration, Executing)], executed := s.executed + [index])
    else s.(workers := s.workers[w := Worker(iteration, Preparing)])
  }

  /** The first items, worker by worker. */
  function Launch<Q(==), R, E>(c: Config<Q>, n: nat): (s: State<Q, R, E>)
    requires n <= c.Workers()
    ensures |s.workers| == c.Workers()
  {
    if n == 0 then
      State(false, {}, EmptyGroup(), seq(c.Workers(), _ => Worker(0, NotStarted)), [])
    else Enter(c, Launch(c, n - 1), n - 1, 0)
  }

  predicate Enabled<Q, R, E>(s: State<Q, R, E>, e: Event<R, E>) {
    e.w < |s.workers| && s.workers[e.w].phase == if e.Prepared? || e.PrepareFailed? then Preparing else Executing
  }

  function Step<Q(==), R, E>(c: Config<Q>, s: State<Q, R, E>, e: Event<R, E>): State<Q, R, E>
    requires Enabled(s, e) && |s.workers| == c.Workers()
    requires c.IndexOf(e.w, s.workers[e.w].iteration) < |c.queries|
  {
    var iteration := s.workers[e.w].iteration;
    var index := c.IndexOf(e.w, iteration);
    match e
    case Prepared(w) =>
      s.(cache := s.cache + {c.queries[index]}, workers := s.workers[w := Worker(iteration, Executing)],
         executed := s.executed + [index])
    case PrepareFailed(w) => s.(workers := s.workers[w := Worker(iteration, Rejected)])
    case Succeeded(w, rs) =>
      Enter(c, s.(result := Add(s.result, index, Success(rs), c.collectResults, c.maxErrors)), w, iteration + 1)
    case Failed(w, err) =>
      var t := s.(result := Add(s.result, index, Failure(err), c.collectResults, c.maxErrors));
      if c.raiseOnFirstError then t.(stop := true, workers := t.workers[w := Worker(iteration, Rejected)])
      else Enter(c, t, w, iteration + 1)
  }

  // ----- The object -----

  class ArrayBasedExecutor<Q(==), R, E> {
    const c: Config<Q>
    var stop: bool
    var cache: set<Q>
    const result: ResultSetGroup<R, E>
    var workers: seq<Worker>
    ghost var executed: seq<nat>

    ghost predicate Valid()
      reads this
    {
      result.collectResults == c.collectResults && result.maxErrors == c.maxErrors && |workers| == c.Workers()
    }

    ghost function View(): State<Q, R, E>
      reads this, result
    {
      State(stop, cache, result.View(), workers, executed)
    }

    constructor (c: Config<Q>)
      ensures Valid() && View() == Launch(c, c.Workers()) && this.c == c && fresh(result)
    {
      this.c := c;
      stop, cache, executed := false, {}, [];
      workers := seq(c.Workers(), _ => Worker(0, NotStarted));
      result := new ResultSetGroup(c.collectResults, c.maxErrors);
      new;
      for i := 0 to c.Workers()
        invariant Valid() && this.c == c && View() == Launch(c, i)
      {
        ExecuteOneAtATime(i, 0);
      }
    }

    method ExecuteOneAtATime(initialIndex: nat, iteration: nat)
      requires Valid() && initialIndex < |workers|
      modifies this
      ensures Valid() && View() == Enter(c, old(View()), initialIndex, iteration)
    {
      var index := initialIndex + c.Workers() * iteration;
      if index >= |c.queries| || stop {
        workers := workers[initialIndex := Worker(iteration, Finished)];
        return;
      }
      var query := c.queries[index];
      if query !in cache {
        workers := workers[initialIndex := Worker(iteration, Preparing)];
      } else {
        Execute(initialIndex, iteration, index);
      }
    }

    method Execute(w: nat, iteration: nat, index: nat)
      requires Valid() && w < |workers|
      modifies this`workers, this`executed
      ensures Valid()
      ensures View() == old(View()).(workers := old(workers)[w := Worker(iteration, Executing)],
                                     executed := old(executed) + [index])
    {
      workers := workers[w := Worker(iteration, Executing)];
      executed := executed + [index];
    }

    method OnPrepared(w: nat)
      requires Valid() && Enabled(View(), Prepared(w)) && c.IndexOf(w, workers[w].iteration) < |c.queries|
      modifies this
      ensures Valid() && View() == Step(c, old(View()), Prepared(w))
    {
      var iteration := workers[w].iteration;
      var index := c.IndexOf(w, iteration);
      cache := cache + {c.queries[index]};
      Execute(w, iteration, index);
    }

    method OnPrepareFailed(w: nat)
      requires Valid() && Enabled(View(), PrepareFailed(w)) && c.IndexOf(w, workers[w].iteration) < |c.queries|
      modifies this
      ensures Valid() && View() == Step(c, old(View()), PrepareFailed(w))
    {
      workers := workers[w := Worker(workers[w].iteration, Rejected)];
    }

    method OnSuccess(w: nat, rs: R)
      requires Valid() && Enabled(View(), Succeeded(w, rs)) && c.IndexOf(w, workers[w].iteration) < |c.queries|
      modifies this, result
      ensures Valid() && View() == Step(c, old(View()), Succeeded(w, rs))
    {
      var iteration := workers[w].iteration;
      result.SetResultItem(c.IndexOf(w, iteration), rs);
      ExecuteOneAtATime(w, iteration + 1);
    }

    method OnFailure(w: nat, err: E)
      requires Valid() && Enabled(View(), Failed(w, err)) && c.IndexOf(w, workers[w].iteration) < |c.queries|
      modifies this, result
      ensures Valid() && View() == Step(c, old(View()), Failed(w, err))
    {
      var iteration := workers[w].iteration;
      result.SetError(c.IndexOf(w, iteration), err);
      if c.raiseOnFirstError {
        stop := true;
        workers := workers[w := Worker(iteration, Rejected)];
      } else {
        ExecuteOneAtATime(w, iteration + 1);
      }
    }
  }

  // ----- What every state keeps -----

  predicate Distinct(s: seq<nat>) {
    forall i, j :: 0 <= i < j < |s| ==> s[i] != s[j]
  }

  /** One worker: it has executed the items of its iterations so far, and no others. */
  ghost predicate WorkerRight<Q, R, E>(c: Config<Q>, s: State<Q, R, E>, w: nat)
    requires w < |s.workers|
  {
    var Worker(iteration, phase) := s.workers[w];
    && (phase.Preparing? || phase.Executing? || phase.Rejected? ==> c.IndexOf(w, iteration) < |c.queries|)
    && (phase.Finished? ==> c.IndexOf(w, iteration) >= |c.queries| || s.stop)
    && (phase.NotStarted? ==> iteration == 0)
    && (forall it: nat :: c.IndexOf(w, it) in s.executed ==>
          it < iteration || (it == iteration && (phase.Executing? || phase.Rejected?)))
    && (forall it: nat :: c.IndexOf(w, it) < |c.queries| && (it < iteration || (it == iteration && phase.Executing?)) ==>
          c.IndexOf(w, it) in s.executed)
  }

  ghost predicate Right<Q, R, E>(c: Config<Q>, s: State<Q, R, E>) {
    && |s.workers| == c.Workers()
    && (forall w: nat :: w < |s.workers| ==> WorkerRight(c, s, w))
    && Distinct(s.executed)
    && (forall x <- s.executed :: x < |c.queries|)
  }

  lemma MultiplyUp(p: nat, a: int, b: int)
    requires a <= b
    ensures p * a <= p * b
  {
  }

  /** Workers never share an item. */
  lemma OneWorkerPerItem<Q>(c: Config<Q>, v: nat, i: nat, w: nat, j: nat)
    requires v < c.Workers() && w < c.Workers() && c.IndexOf(v, i) == c.IndexOf(w, j)
    ensures v == w && i == j
  {
    var p := c.Workers();
    if i < j {
      MultiplyUp(p, i + 1, j);
    } else if j < i {
      MultiplyUp(p, j + 1, i);
    }
  }

  lemma Increasing<Q>(c: Config<Q>, w: nat, i: nat, j: nat)
    requires i <= j
    ensures c.IndexOf(w, i) <= c.IndexOf(w, j)
  {
    MultiplyUp(c.Workers(), i, j);
  }

  lemma {:induction false} OthersKept<Q, R, E>(c: Config<Q>, s: State<Q, R, E>, t: State<Q, R, E>, w: nat, iteration: nat, v: nat)
    requires |s.workers| == |t.workers| == c.Workers() && w < |s.workers| && v < |s.workers| && v != w
    requires t.workers[v] == s.workers[v] && (s.stop ==> t.stop)
    requires t.executed == s.executed || t.executed == s.executed + [c.IndexOf(w, iteration)]
    requires WorkerRight(c, s, v)
    ensures WorkerRight(c, t, v)
  {
    forall it: nat | c.IndexOf(v, it) in t.executed
      ensures c.IndexOf(v, it) in s.executed
    {
      if c.IndexOf(v, it) == c.IndexOf(w, iteration) {
        OneWorkerPerItem(c, v, it, w, iteration);
      }
    }
  }

  /** The worker has executed exactly its items before an iteration. */
  ghost predicate Ready<Q, R, E>(c: Config<Q>, s: State<Q, R, E>, w: nat, iteration: nat) {
    && (forall it: nat :: c.IndexOf(w, it) in s.executed ==> it < iteration)
    && (forall it: nat :: it < iteration && c.IndexOf(w, it) < |c.queries| ==> c.IndexOf(w, it) in s.executed)
  }

  lemma DistinctAppend(s: seq<nat>, x: nat)
    requires Distinct(s) && x !in s
    ensures Distinct(s + [x])
  {
  }

  lemma {:induction false} EnterKeeps<Q, R, E>(c: Config<Q>, s: State<Q, R, E>, w: nat, iteration: nat)
    requires Right(c, s) && w < |s.workers| && Ready(c, s, w, iteration)
    ensures Right(c, Enter(c, s, w, iteration))
  {
    var t := Enter(c, s, w, iteration);
    var index := c.IndexOf(w, iteration);
    hide Config.IndexOf;
    forall v: nat | v < |t.workers| && v != w
      ensures WorkerRight(c, t, v)
    {
      hide Enter;
      EnterShape(c, s, w, iteration);
      OthersKept(c, s, t, w, iteration, v);
    }
    if t.executed != s.executed {
      DistinctAppend(s.executed, index);
    }
    EnteredRight(c, s, w, iteration);
  }

  lemma EnterShape<Q, R, E>(c: Config<Q>, s: State<Q, R, E>, w: nat, iteration: nat)
    requires w < |s.workers|
    ensures var t := Enter(c, s, w, iteration);
      && |t.workers| == |s.workers| && (forall v :: 0 <= v < |s.workers| && v != w ==> t.workers[v] == s.workers[v])
      && t.stop == s.stop && (t.executed == s.executed || t.executed == s.executed + [c.IndexOf(w, iteration)])
  {
  }

  lemma {:induction false} EnteredRight<Q, R, E>(c: Config<Q>, s: State<Q, R, E>, w: nat, iteration: nat)
    requires |s.workers| == c.Workers() && w < |s.workers| && Ready(c, s, w, iteration)
    ensures WorkerRight(c, Enter(c, s, w, iteration), w)
  {
    var t := Enter(c, s, w, iteration);
    forall it: nat | c.IndexOf(w, it) in t.executed
      ensures it < iteration || (it == iteration && t.workers[w].phase.Executing?)
    {
      if t.executed != s.executed && c.IndexOf(w, it) == c.IndexOf(w, iteration) {
        OneWorkerPerItem(c, w, it, w, iteration);
      }
    }
  }

  lemma {:induction false} LaunchRight<Q, R, E>(c: Config<Q>, n: nat)
    requires n <= c.Workers()
    ensures Right<Q, R, E>(c, Launch(c, n)) && !Launch<Q, R, E>(c, n).stop
    ensures forall w: nat :: n <= w < c.Workers() ==> Launch<Q, R, E>(c, n).workers[w] == Worker(0, NotStarted)
    ensures Launch<Q, R, E>(c, n).result == EmptyGroup()
    ensures forall w: nat :: w < n ==> !Launch<Q, R, E>(c, n).workers[w].phase.NotStarted?
    decreases n
  {
    if n > 0 {
      LaunchRight<Q, R, E>(c, n - 1);
      var s: State<Q, R, E> := Launch(c, n - 1);
      assert WorkerRight(c, s, n - 1);
      EnterKeeps(c, s, n - 1, 0);
    }
  }

  lemma {:induction false} StepKeeps<Q, R, E>(c: Config<Q>, s: State<Q, R, E>, e: Event<R, E>)
    requires Right(c, s) && Enabled(s, e)
    ensures c.IndexOf(e.w, s.workers[e.w].iteration) < |c.queries|
    ensures Right(c, Step(c, s, e))
  {
    var iteration := s.workers[e.w].iteration;
    var index := c.IndexOf(e.w, iteration);
    assert WorkerRight(c, s, e.w);
    hide Config.IndexOf, Add;
    match e
    case Prepared(w) =>
      DistinctAppend(s.executed, index);
      ChangeKeeps(c, s, Step(c, s, e), w, iteration);
    case PrepareFailed(w) => ChangeKeeps(c, s, Step(c, s, e), w, iteration);
    case Succeeded(w, rs) =>
      var t := s.(result := Add(s.result, index, Success(rs), c.collectResults, c.maxErrors));
      ResultKeeps(c, s, t);
      EnterKeeps(c, t, w, iteration + 1);
    case Failed(w, err) =>
      var t := s.(result := Add(s.result, index, Failure(err), c.collectResults, c.maxErrors));
      if c.raiseOnFirstError {
        ChangeKeeps(c, s, Step(c, s, e), w, iteration);
      } else {
        ResultKeeps(c, s, t);
        EnterKeeps(c, t, w, iteration + 1);
      }
  }

  lemma ResultKeeps<Q, R, E>(c: Config<Q>, s: State<Q, R, E>, t: State<Q, R, E>)
    requires Right(c, s) && t == s.(result := t.result)
    ensures Right(c, t)
  {
    forall w: nat | w < |t.workers|
      ensures WorkerRight(c, t, w)
    {
      assert WorkerRight(c, s, w);
    }
  }

  /** A change of one worker's phase, with its item executed or not. */
  lemma {:induction false} ChangeKeeps<Q, R, E>(c: Config<Q>, s: State<Q, R, E>, t: State<Q, R, E>, w: nat, iteration: nat)
    requires Right(c, s) && |t.workers| == |s.workers| && w < |s.workers| && (s.stop ==> t.stop)
    requires s.workers[w].iteration == iteration == t.workers[w].iteration
    requires s.workers[w].phase.Preparing? || s.workers[w].phase.Executing?
    requires t.workers[w].phase.Executing? || t.workers[w].phase.Rejected?
    requires forall v :: 0 <= v < |s.workers| && v != w ==> t.workers[v] == s.workers[v]
    requires t.executed == s.executed + [c.IndexOf(w, iteration)] || (t.executed == s.executed && t.workers[w].phase.Rejected?)
    requires Distinct(t.executed)
    ensures Right(c, t)
  {
    assert WorkerRight(c, s, w);
    forall v: nat | v < |t.workers| && v != w
      ensures WorkerRight(c, t, v)
    {
      OthersKept(c, s, t, w, iteration, v);
    }
    forall it: nat | c.IndexOf(w, it) in t.executed
      ensures it <= iteration
    {
      if c.IndexOf(w, it) == c.IndexOf(w, iteration) {
        OneWorkerPerItem(c, w, it, w, iteration);
      }
    }
  }

  // ----- Counting -----

  function Running(workers: seq<Worker>, n: nat): nat
    requires n <= |workers|
  {
    if n == 0 then 0 else Running(workers, n - 1) + (if workers[n - 1].phase.Executing? then 1 else 0)
  }

  lemma {:induction false} RunningUpdate(workers: seq<Worker>, w: nat, x: Worker, n: nat)
    requires w < |workers| && n <= |workers|
    ensures Running(workers[w := x], n) == Running(workers, n)
      + (if w < n && x.phase.Executing? then 1 else 0) - (if w < n && workers[w].phase.Executing? then 1 else 0)
    decreases n
  {
    if n > 0 {
      RunningUpdate(workers, w, x, n - 1);
    }
  }

  ghost predicate Counted<Q, R, E>(s: State<Q, R, E>) {
    s.result.totalExecuted + Running(s.workers, |s.workers|) == |s.executed|
  }

  lemma {:induction false} EnterCounts<Q, R, E>(c: Config<Q>, s: State<Q, R, E>, w: nat, iteration: nat)
    requires w < |s.workers|
    ensures var t := Enter(c, s, w, iteration);
      |t.executed| - Running(t.workers, |t.workers|)
      == |s.executed| - Running(s.workers, |s.workers|) + (if s.workers[w].phase.Executing? then 1 else 0)
  {
    RunningUpdate(s.workers, w, Enter(c, s, w, iteration).workers[w], |s.workers|);
  }

  lemma {:induction false} StepCounts<Q, R, E>(c: Config<Q>, s: State<Q, R, E>, e: Event<R, E>)
    requires |s.workers| == c.Workers() && Enabled(s, e) && c.IndexOf(e.w, s.workers[e.w].iteration) < |c.queries|
    requires Counted(s)
    ensures Counted(Step(c, s, e))
  {
    var iteration := s.workers[e.w].iteration;
    var t := Step(c, s, e);
    RunningUpdate(s.workers, e.w, t.workers[e.w], |s.workers|);
    match e
    case Succeeded(w, rs) =>
      EnterCounts(c, s.(result := Add(s.result, c.IndexOf(w, iteration), Success(rs), c.collectResults, c.maxErrors)), w, iteration + 1);
    case Failed(w, err) =>
      if !c.raiseOnFirstError {
        EnterCounts(c, s.(result := Add(s.result, c.IndexOf(w, iteration), Failure(err), c.collectResults, c.maxErrors)), w, iteration + 1);
      }
    case _ =>
  }

  lemma {:induction false} LaunchCounts<Q, R, E>(c: Config<Q>, n: nat)
    requires n <= c.Workers()
    ensures Counted<Q, R, E>(Launch(c, n))
    decreases n
  {
    var s: State<Q, R, E> := Launch(c, n);
    if n == 0 {
      NoneRunning(s.workers, |s.workers|);
    } else {
      LaunchRight<Q, R, E>(c, n - 1);
      LaunchCounts<Q, R, E>(c, n - 1);
      EnterCounts<Q, R, E>(c, Launch(c, n - 1), n - 1, 0);
    }
  }

  lemma {:induction false} NoneRunning(workers: seq<Worker>, n: nat)
    requires n <= |workers| && forall w :: 0 <= w < n ==> !workers[w].phase.Executing?
    ensures Running(workers, n) == 0
    decreases n
  {
    if n > 0 {
      NoneRunning(workers, n - 1);
    }
  }

  // ----- Every run -----

  /** The state after the first n events; an event that cannot happen changes nothing. */
  function After<Q(==), R, E>(c: Config<Q>, events: seq<Event<R, E>>, n: nat): (s: State<Q, R, E>)
    requires n <= |events|
    ensures |s.workers| == c.Workers()
  {
    if n == 0 then Launch(c, c.Workers())
    else
      var s: State<Q, R, E> := After(c, events, n - 1);
      var e := events[n - 1];
      if Enabled(s, e) && c.IndexOf(e.w, s.workers[e.w].iteration) < |c.queries| then Step(c, s, e) else s
  }

  ghost predicate Run<Q, R, E>(c: Config<Q>, events: seq<Event<R, E>>) {
    forall n: nat :: n < |events| ==> Enabled(After(c, events, n), events[n])
  }

  /** How the execution of each item ended. */
  function Endings<Q(==), R, E>(c: Config<Q>, events: seq<Event<R, E>>, n: nat): map<nat, Item<R, E>>
    requires n <= |events|
  {
    if n == 0 then map[]
    else
      var e, workers := events[n - 1], After(c, events, n - 1).workers;
      if e.Succeeded? && e.w < |workers| then
        Endings(c, events, n - 1)[c.IndexOf(e.w, workers[e.w].iteration) := Success(e.rs)]
      else if e.Failed? && e.w < |workers| then
        Endings(c, events, n - 1)[c.IndexOf(e.w, workers[e.w].iteration) := Failure(e.err)]
      else Endings(c, events, n - 1)
  }

  /** Exactly what a worker has executed and is not executing any more has ended. */
  ghost predicate Ended<Q, R, E>(c: Config<Q>, s: State<Q, R, E>, ended: set<nat>) {
    forall w: nat, it: nat :: w < |s.workers| ==>
      (c.IndexOf(w, it) in ended <==>
       c.IndexOf(w, it) in s.executed && !(it == s.workers[w].iteration && s.workers[w].phase.Executing?))
  }

  lemma {:induction false} EndedKept<Q, R, E>(c: Config<Q>, s: State<Q, R, E>, e: Event<R, E>, ended: set<nat>)
    requires Right(c, s) && Enabled(s, e) && c.IndexOf(e.w, s.workers[e.w].iteration) < |c.queries|
    requires Ended(c, s, ended)
    ensures Ended(c, Step(c, s, e),
                  if e.Succeeded? || e.Failed? then ended + {c.IndexOf(e.w, s.workers[e.w].iteration)} else ended)
  {
    var t := Step(c, s, e);
    var w, iteration := e.w, s.workers[e.w].iteration;
    var after := if e.Succeeded? || e.Failed? then ended + {c.IndexOf(w, iteration)} else ended;
    StepShape(c, s, e);
    assert WorkerRight(c, s, w);
    hide Step, Right, Config.IndexOf;
    forall v: nat, it: nat | v < |t.workers|
      ensures c.IndexOf(v, it) in after <==>
        c.IndexOf(v, it) in t.executed && !(it == t.workers[v].iteration && t.workers[v].phase.Executing?)
    {
      if c.IndexOf(v, it) == c.IndexOf(w, iteration) {
        OneWorkerPerItem(c, v, it, w, iteration);
      }
      if c.IndexOf(v, it) == c.IndexOf(w, iteration + 1) {
        OneWorkerPerItem(c, v, it, w, iteration + 1);
      }
    }
  }

  /** What an event does to its worker and to the list of executions. */
  lemma StepShape<Q, R, E>(c: Config<Q>, s: State<Q, R, E>, e: Event<R, E>)
    requires |s.workers| == c.Workers() && Enabled(s, e) && c.IndexOf(e.w, s.workers[e.w].iteration) < |c.queries|
    ensures var t := Step(c, s, e);
      var iteration, x := s.workers[e.w].iteration, t.workers[e.w];
      && |t.workers| == |s.workers| && (forall v :: 0 <= v < |s.workers| && v != e.w ==> t.workers[v] == s.workers[v])
      && (e.Prepared? ==> x == Worker(iteration, Executing) && t.executed == s.executed + [c.IndexOf(e.w, iteration)])
      && (e.PrepareFailed? ==> x == Worker(iteration, Rejected) && t.executed == s.executed)
      && (e.Succeeded? || e.Failed? ==>
            || (x == Worker(iteration, Rejected) && t.executed == s.executed)
            || (x.iteration == iteration + 1 && !x.phase.Executing? && t.executed == s.executed)
            || (x == Worker(iteration + 1, Executing) && t.executed == s.executed + [c.IndexOf(e.w, iteration + 1)]))
  {
  }

  lemma {:induction false} LaunchNothing<Q, R, E>(c: Config<Q>, n: nat)
    requires n <= c.Workers()
    ensures Launch<Q, R, E>(c, n).executed == []
    decreases n
  {
    if n > 0 {
      LaunchNothing<Q, R, E>(c, n - 1);
      EmptyCache<Q, R, E>(c, n - 1);
    }
  }

  lemma {:induction false} EmptyCache<Q, R, E>(c: Config<Q>, n: nat)
    requires n <= c.Workers()
    ensures Launch<Q, R, E>(c, n).cache == {}
    decreases n
  {
    if n > 0 {
      EmptyCache<Q, R, E>(c, n - 1);
    }
  }

  ghost predicate Collected<Q, R, E>(c: Config<Q>, s: State<Q, R, E>, endings: map<nat, Item<R, E>>) {
    Ended(c, s, endings.Keys) && s.result.resultItems == if c.collectResults then endings else map[]
  }

  lemma ItemsKept<Q, R, E>(c: Config<Q>, s: State<Q, R, E>, e: Event<R, E>)
    requires |s.workers| == c.Workers() && Enabled(s, e) && c.IndexOf(e.w, s.workers[e.w].iteration) < |c.queries|
    ensures var index := c.IndexOf(e.w, s.workers[e.w].iteration);
      Step(c, s, e).result.resultItems
      == if !c.collectResults then s.result.resultItems
         else match e
           case Succeeded(_, rs) => s.result.resultItems[index := Success(rs)]
           case Failed(_, err) => s.result.resultItems[index := Failure(err)]
           case _ => s.result.resultItems
  {
  }

  /** Workers stop taking items only after one of them was rejected. */
  ghost predicate StopsRight<Q, R, E>(s: State<Q, R, E>) {
    s.stop ==> exists w: nat :: w < |s.workers| && s.workers[w].phase.Rejected?
  }

  ghost predicate Good<Q, R, E>(c: Config<Q>, events: seq<Event<R, E>>, n: nat)
    requires n <= |events|
  {
    var s := After(c, events, n);
    && Right(c, s) && Counted(s) && Collected(c, s, Endings(c, events, n)) && StopsRight(s)
    && forall w: nat :: w < |s.workers| ==> !s.workers[w].phase.NotStarted?
  }

  lemma {:induction false} StartIsGood<Q, R, E>(c: Config<Q>, events: seq<Event<R, E>>)
    ensures Good(c, events, 0)
  {
    LaunchRight<Q, R, E>(c, c.Workers());
    LaunchCounts<Q, R, E>(c, c.Workers());
    LaunchNothing<Q, R, E>(c, c.Workers());
    hide Launch, Right, Counted;
    var s: State<Q, R, E> := Launch(c, c.Workers());
    assert After(c, events, 0) == s && Endings(c, events, 0) == map[];
  }

  lemma {:induction false} CollectedKept<Q, R, E>(c: Config<Q>, s: State<Q, R, E>, e: Event<R, E>, endings: map<nat, Item<R, E>>)
    requires Right(c, s) && Enabled(s, e) && c.IndexOf(e.w, s.workers[e.w].iteration) < |c.queries|
    requires Collected(c, s, endings)
    ensures var index := c.IndexOf(e.w, s.workers[e.w].iteration);
      Collected(c, Step(c, s, e),
        match e
        case Succeeded(_, rs) => endings[index := Success(rs)]
        case Failed(_, err) => endings[index := Failure(err)]
        case _ => endings)
  {
    EndedKept(c, s, e, endings.Keys);
    ItemsKept(c, s, e);
    hide Step, Right, Ended, Config.IndexOf;
    var index := c.IndexOf(e.w, s.workers[e.w].iteration);
    match e
    case Succeeded(_, rs) => assert endings[index := Success(rs)].Keys == endings.Keys + {index};
    case Failed(_, err) => assert endings[index := Failure(err)].Keys == endings.Keys + {index};
    case _ =>
  }

  lemma StopKept<Q, R, E>(c: Config<Q>, s: State<Q, R, E>, e: Event<R, E>)
    requires |s.workers| == c.Workers() && Enabled(s, e)
    requires c.IndexOf(e.w, s.workers[e.w].iteration) < |c.queries|
    requires StopsRight(s)
    ensures StopsRight(Step(c, s, e))
  {
    var t := Step(c, s, e);
    if s.stop {
      var w: nat :| w < |s.workers| && s.workers[w].phase.Rejected?;
      assert t.workers[w] == s.workers[w];
    } else if t.stop {
      assert t.workers[e.w].phase.Rejected?;
    }
  }

  lemma StartedKept<Q, R, E>(c: Config<Q>, s: State<Q, R, E>, e: Event<R, E>)
    requires |s.workers| == c.Workers() && Enabled(s, e) && c.IndexOf(e.w, s.workers[e.w].iteration) < |c.queries|
    requires forall w: nat :: w < |s.workers| ==> !s.workers[w].phase.NotStarted?
    ensures var t := Step(c, s, e);
      forall w: nat :: w < |t.workers| ==> !t.workers[w].phase.NotStarted?
  {
  }

  lemma {:induction false} NextIsGood<Q, R, E>(c: Config<Q>, events: seq<Event<R, E>>, n: nat)
    requires n < |events| && Good(c, events, n) && Enabled(After(c, events, n), events[n])
    ensures Good(c, events, n + 1)
  {
    var s, e := After(c, events, n), events[n];
    StepKeeps(c, s, e);
    hide Right, Counted, Collected, StopsRight, Step, Add, Config.IndexOf;
    StepCounts(c, s, e);
    CollectedKept(c, s, e, Endings(c, events, n));
    StopKept(c, s, e);
    StartedKept(c, s, e);
    assert After(c, events, n + 1) == Step(c, s, e);
    assert Collected(c, Step(c, s, e), Endings(c, events, n + 1));
  }

  lemma {:induction false} EveryState<Q, R, E>(c: Config<Q>, events: seq<Event<R, E>>, n: nat)
    requires Run(c, events) && n <= |events|
    ensures Good(c, events, n)
    decreases n
  {
    hide Good, Enabled;
    if n == 0 {
      StartIsGood(c, events);
    } else {
      EveryState(c, events, n - 1);
      NextIsGood(c, events, n - 1);
    }
  }

  /** In every run, with errors or without, no item is executed twice, and the result counts exactly the executions that ended. */
  lemma {:induction false} AtMostOnce<Q, R, E>(c: Config<Q>, events: seq<Event<R, E>>)
    requires Run(c, events)
    ensures var s := After(c, events, |events|);
      && Distinct(s.executed) && (forall x <- s.executed :: x < |c.queries|)
      && s.result.totalExecuted + Running(s.workers, |s.workers|) == |s.executed|
  {
    EveryState(c, events, |events|);
  }

  // ----- The end -----

  lemma ItemHasWorker<Q>(c: Config<Q>, x: nat)
    requires c.Workers() > 0
    ensures x % c.Workers() < c.Workers() && c.IndexOf(x % c.Workers(), x / c.Workers()) == x
  {
  }

  lemma {:induction false} DistinctLength(s: seq<nat>, n: nat)
    requires Distinct(s) && forall x: nat :: x in s <==> x < n
    ensures |s| == n
    decreases n
  {
    assert s == [] || s[0] in s;
    if n > 0 {
      var last: nat := n - 1;
      assert last in s;
      var i :| 0 <= i < |s| && s[i] == last;
      var rest := s[..i] + s[i + 1..];
      forall x: nat
        ensures x in rest <==> x < n - 1
      {
        if x in s && x != n - 1 {
          var j :| 0 <= j < |s| && s[j] == x;
          assert x == if j < i then rest[j] else rest[j - 1];
        }
      }
      DistinctLength(rest, n - 1);
    }
  }

  /**
   When every worker has come to its end, so that the user gets a result, every item has been executed
   exactly once, and how it ended stands at its own index.
   */
  lemma {:induction false} AllItemsExecuted<Q, R, E>(c: Config<Q>, events: seq<Event<R, E>>)
    requires Run(c, events) && (c.level > 0 || c.queries == [])
    requires var s := After(c, events, |events|);
      forall w: nat :: w < |s.workers| ==> s.workers[w].phase.Finished?
    ensures var s := After(c, events, |events|);
      && Distinct(s.executed) && (forall x: nat :: x in s.executed <==> x < |c.queries|)
      && s.result.totalExecuted == |c.queries|
      && (forall x: nat :: x in Endings(c, events, |events|) <==> x < |c.queries|)
      && (c.collectResults ==> s.result.resultItems == Endings(c, events, |events|))
  {
    var s, endings := After(c, events, |events|), Endings(c, events, |events|);
    NoWorkersNoEvents(c, events);
    hide After, Endings, Counted, Collected, Right, Distinct, Run;
    EveryState(c, events, |events|);
    assert !s.stop;
    AllExecuted(c, s);
    AllEnded(c, s, endings);
  }

  ghost predicate NobodyIsRejected<Q, R, E>(s: State<Q, R, E>) {
    forall w: nat :: w < |s.workers| ==> !s.workers[w].phase.Rejected?
  }

  lemma EnterRejectsNobody<Q, R, E>(c: Config<Q>, s: State<Q, R, E>, w: nat, iteration: nat)
    requires w < |s.workers| && forall v: nat :: v < |s.workers| && v != w ==> !s.workers[v].phase.Rejected?
    ensures NobodyIsRejected(Enter(c, s, w, iteration))
  {
  }

  lemma StepRejectsNobody<Q, R, E>(c: Config<Q>, s: State<Q, R, E>, e: Event<R, E>)
    requires |s.workers| == c.Workers() && Enabled(s, e) && c.IndexOf(e.w, s.workers[e.w].iteration) < |c.queries|
    requires NobodyIsRejected(s) && !c.raiseOnFirstError && !e.PrepareFailed?
    ensures NobodyIsRejected(Step(c, s, e))
  {
    hide Enter, Add, Config.IndexOf;
    var iteration := s.workers[e.w].iteration;
    var index := c.IndexOf(e.w, iteration);
    match e
    case Succeeded(w, rs) =>
      EnterRejectsNobody(c, s.(result := Add(s.result, index, Success(rs), c.collectResults, c.maxErrors)), w, iteration + 1);
    case Failed(w, err) =>
      EnterRejectsNobody(c, s.(result := Add(s.result, index, Failure(err), c.collectResults, c.maxErrors)), w, iteration + 1);
    case _ =>
  }

  lemma NextRejectsNobody<Q, R, E>(c: Config<Q>, events: seq<Event<R, E>>, n: nat)
    requires n < |events| && Good(c, events, n) && Enabled(After(c, events, n), events[n])
    requires NobodyIsRejected(After(c, events, n)) && !c.raiseOnFirstError && !events[n].PrepareFailed?
    ensures NobodyIsRejected(After(c, events, n + 1))
  {
    hide Right, Counted, Collected, StopsRight, Step, Add, Config.IndexOf, NobodyIsRejected, Enabled, Endings;
    var s, e := After(c, events, n), events[n];
    StepKeeps(c, s, e);
    StepRejectsNobody(c, s, e);
    assert After(c, events, n + 1) == Step(c, s, e);
  }

  /** Nobody is rejected when errors do not raise and prepares succeed. */
  lemma {:induction false} NobodyRejected<Q, R, E>(c: Config<Q>, events: seq<Event<R, E>>, n: nat)
    requires Run(c, events) && n <= |events| && !c.raiseOnFirstError
    requires forall i :: 0 <= i < n ==> !events[i].PrepareFailed?
    ensures NobodyIsRejected(After(c, events, n))
    decreases n
  {
    hide Good, Enabled, NobodyIsRejected, Run, After, Launch;
    if n == 0 {
      StartRejectsNobody(c, events);
    } else {
      NobodyRejected(c, events, n - 1);
      EveryState(c, events, n - 1);
      RunAt(c, events, n - 1);
      NextRejectsNobody(c, events, n - 1);
    }
  }

  lemma RunAt<Q, R, E>(c: Config<Q>, events: seq<Event<R, E>>, n: nat)
    requires Run(c, events) && n < |events|
    ensures Enabled(After(c, events, n), events[n])
  {
    hide After, Enabled;
  }

  lemma StartRejectsNobody<Q, R, E>(c: Config<Q>, events: seq<Event<R, E>>)
    ensures NobodyIsRejected(After(c, events, 0))
  {
    hide Launch, NobodyIsRejected;
    LaunchRejectsNobody<Q, R, E>(c, c.Workers());
    assert After(c, events, 0) == Launch<Q, R, E>(c, c.Workers());
  }

  lemma {:induction false} LaunchRejectsNobody<Q, R, E>(c: Config<Q>, n: nat)
    requires n <= c.Workers()
    ensures NobodyIsRejected<Q, R, E>(Launch(c, n))
    decreases n
  {
    if n > 0 {
      hide Enter;
      LaunchRejectsNobody<Q, R, E>(c, n - 1);
      EnterRejectsNobody<Q, R, E>(c, Launch(c, n - 1), n - 1, 0);
    }
  }

  /**
   The same as a caller can tell: when errors do not raise and prepares succeed, a run in which nothing more can
   happen, no prepare ending and no execution, has executed every item exactly once.
   */
  lemma {:induction false} AllItemsExecutedAtRest<Q, R, E>(c: Config<Q>, events: seq<Event<R, E>>, rs: R)
    requires Run(c, events) && (c.level > 0 || c.queries == []) && !c.raiseOnFirstError
    requires forall i :: 0 <= i < |events| ==> !events[i].PrepareFailed?
    requires var s := After(c, events, |events|);
      forall w: nat :: !Enabled(s, Prepared(w)) && !Enabled(s, Succeeded(w, rs))
    ensures var s := After(c, events, |events|);
      && (forall w: nat :: w < |s.workers| ==> s.workers[w].phase.Finished?)
      && Distinct(s.executed) && (forall x: nat :: x in s.executed <==> x < |c.queries|)
      && s.result.totalExecuted == |c.queries|
      && (forall x: nat :: x in Endings(c, events, |events|) <==> x < |c.queries|)
      && (c.collectResults ==> s.result.resultItems == Endings(c, events, |events|))
  {
    hide After, Endings, Run, Distinct, Right, Counted, Collected;
    var s := After(c, events, |events|);
    EveryState(c, events, |events|);
    NobodyRejected(c, events, |events|);
    forall w: nat | w < |s.workers|
      ensures s.workers[w].phase.Finished?
    {
      assert !Enabled(s, Prepared(w)) && !Enabled(s, Succeeded(w, rs));
    }
    AllItemsExecuted(c, events);
  }

  lemma NoWorkersNoEvents<Q, R, E>(c: Config<Q>, events: seq<Event<R, E>>)
    requires Run(c, events)
    ensures c.Workers() == 0 ==> events == [] && After(c, events, |events|).executed == [] && Endings(c, events, |events|) == map[]
  {
    if events == [] {
      LaunchNothing<Q, R, E>(c, c.Workers());
    } else {
      assert Enabled(After(c, events, 0), events[0]);
    }
  }

  lemma {:induction false} AllExecuted<Q, R, E>(c: Config<Q>, s: State<Q, R, E>)
    requires Right(c, s) && Counted(s) && !s.stop && (c.level > 0 || c.queries == [])
    requires forall w: nat :: w < |s.workers| ==> s.workers[w].phase.Finished?
    ensures Distinct(s.executed) && (forall x: nat :: x in s.executed <==> x < |c.queries|)
    ensures s.result.totalExecuted == |c.queries|
  {
    forall x: nat | x < |c.queries|
      ensures x in s.executed
    {
      hide Right;
      FinishedMeansExecuted(c, s, x);
    }
    NoneRunning(s.workers, |s.workers|);
    DistinctLength(s.executed, |c.queries|);
  }

  lemma {:induction false} AllEnded<Q, R, E>(c: Config<Q>, s: State<Q, R, E>, endings: map<nat, Item<R, E>>)
    requires Collected(c, s, endings) && |s.workers| == c.Workers()
    requires c.Workers() == 0 ==> s.executed == [] && endings == map[]
    requires forall w: nat :: w < |s.workers| ==> s.workers[w].phase.Finished?
    ensures forall x: nat :: x in endings <==> x in s.executed
    ensures c.collectResults ==> s.result.resultItems == endings
  {
    if c.Workers() > 0 {
      forall x: nat
        ensures x in endings <==> x in s.executed
      {
        ItemHasWorker(c, x);
        hide Config.IndexOf;
        assert c.IndexOf(x % c.Workers(), x / c.Workers()) in endings.Keys <==> x in s.executed;
      }
    }
  }

  lemma {:induction false} FinishedMeansExecuted<Q, R, E>(c: Config<Q>, s: State<Q, R, E>, x: nat)
    requires Right(c, s) && !s.stop && x < |c.queries| && c.Workers() > 0
    requires forall w: nat :: w < |s.workers| ==> s.workers[w].phase.Finished?
    ensures x in s.executed
  {
    var w, it := x % c.Workers(), x / c.Workers();
    ItemHasWorker(c, x);
    assert WorkerRight(c, s, w);
    if it >= s.workers[w].iteration {
      Increasing(c, w, s.workers[w].iteration, it);
    }
  }
}
