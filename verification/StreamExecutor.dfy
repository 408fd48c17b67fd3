/** The collected results of related executions (`ResultSetGroup` in lib/concurrent/index.js). */
module ResultSets {

  /** What an execution ended with. */
  datatype Item<R, E> = Success(rs: R) | Failure(err: E)

  datatype Group<R, E> = Group(totalExecuted: nat, errors: seq<E>, resultItems: map<nat, Item<R, E>>)

  function EmptyGroup<R, E>(): Group<R, E> {
    Group(0, [], map[])
  }

  /** The group after one more execution; only the first errors are kept, and items only when they are collected. */
  function Add<R, E>(g: Group<R, E>, index: nat, item: Item<R, E>, collect: bool, maxErrors: nat): Group<R, E> {
    Group(g.totalExecuted + 1,
          if item.Failure? && |g.errors| < maxErrors then g.errors + [item.err] else g.errors,
          if collect then g.resultItems[index := item] else g.resultItems)
  }

  /** The first `max` errors. */
  function FirstOf<E>(errors: seq<E>, max: nat): seq<E> {
    if |errors| <= max then errors else errors[..max]
  }

  class ResultSetGroup<R, E> {
    const collectResults: bool
    const maxErrors: nat
    var totalExecuted: nat
    var errors: seq<E>
    var resultItems: map<nat, Item<R, E>>

    constructor (collectResults: bool, maxErrors: nat)
      ensures View() == EmptyGroup()
      ensures this.collectResults == collectResults && this.maxErrors == maxErrors
    {
      this.collectResults, this.maxErrors := collectResults, maxErrors;
      totalExecuted, errors, resultItems := 0, [], map[];
    }

    ghost function View(): Group<R, E>
      reads this
    {
      Group(totalExecuted, errors, resultItems)
    }

    method SetResultItem(index: nat, rs: R)
      modifies this
      ensures View() == Add(old(View()), index, Success(rs), collectResults, maxErrors)
    {
      totalExecuted := totalExecuted + 1;
      if collectResults {
        resultItems := resultItems[index := Success(rs)];
      }
    }

    method SetError(index: nat, err: E)
      modifies this
      ensures View() == Add(old(View()), index, Failure(err), collectResults, maxErrors)
    {
      totalExecuted := totalExecuted + 1;
      if |errors| < maxErrors {
        errors := errors + [err];
      }
      if collectResults {
        resultItems := resultItems[index := Failure(err)];
      }
    }
  }
}

/** Execution of a query for each item of a stream, with back-pressure (`StreamBasedExecutor` in lib/concurrent/index.js). */
module StreamExecutor {
  import opened ResultSets

  /** The options in effect, and the error for an item that is not an array. */
  datatype Config<E> = Config(concurrencyLevel: int, raiseOnFirstError: bool, collectResults: bool, maxErrors: nat,
                              formatError: E)

  /** The promise given to the user: the first call to one of its two callbacks decides it. */
  datatype Settlement<E> = Pending | Resolved | Rejected(err: E)

  /**
   The fields of the executor, whether the stream is paused, and what the run time holds: the
   executions in flight and the continuations of those that ended but have not run yet.
   */
  datatype State<R, E> = State(inFlight: int, index: nat, readEnded: bool, result: Group<R, E>, paused: bool,
                               promise: Settlement<E>, executing: set<nat>, continuations: nat)

  datatype Event<R, E> =
    | Data(isArray: bool)
    | Succeeded(i: nat, rs: R)
    | Failed(i: nat, err: E)
    | Continued
    | Ended
    | ReadFailed(err: E)

  function Start<R, E>(): State<R, E> {
    State(0, 0, false, EmptyGroup(), false, Pending, {}, 0)
  }

  function Settle<R, E>(s: State<R, E>, p: Settlement<E>): State<R, E> {
    if s.promise.Pending? then s.(promise := p) else s
  }

  function SetReadEnded<R, E>(s: State<R, E>, p: Settlement<E>): State<R, E> {
    if s.readEnded then s
    else if p.Rejected? then Settle(s.(readEnded := true), p)
    else if s.inFlight == 0 then Settle(s.(readEnded := true), Resolved)
    else s.(readEnded := true)
  }

  function Finish<R, E>(c: Config<E>, s: State<R, E>, i: nat, item: Item<R, E>): State<R, E> {
    s.(result := Add(s.result, i, item, c.collectResults, c.maxErrors), inFlight := s.inFlight - 1,
       executing := s.executing - {i}, continuations := s.continuations + 1)
  }

  function Step<R, E>(c: Config<E>, s: State<R, E>, e: Event<R, E>): State<R, E> {
    match e
    case Data(isArray) =>
      if !isArray then SetReadEnded(s, Rejected(c.formatError))
      else if s.readEnded then s
      else s.(inFlight := s.inFlight + 1, index := s.index + 1, executing := s.executing + {s.index},
              paused := s.paused || s.inFlight + 1 >= c.concurrencyLevel)
    case Succeeded(i, rs) => Finish(c, s, i, Success(rs))
    case Failed(i, err) =>
      var t := Finish(c, s, i, Failure(err));
      if c.raiseOnFirstError then Settle(t.(readEnded := true), Rejected(err)) else t
    case Continued =>
      var t := s.(paused := false, continuations := if s.continuations > 0 then s.continuations - 1 else 0);
      if s.readEnded && s.inFlight == 0 then Settle(t, Resolved) else t
    case Ended => SetReadEnded(s, Resolved)
    case ReadFailed(err) => SetReadEnded(s, Rejected(err))
  }

  /**
   What can happen next: a paused stream gives no data, nor does one before the continuations of ended
   executions have run; an execution ends once.
   */
  predicate Enabled<R, E>(s: State<R, E>, e: Event<R, E>) {
    match e
    case Data(_) => !s.paused && s.continuations == 0
    case Succeeded(i, _) => i in s.executing
    case Failed(i, _) => i in s.executing
    case Continued => s.continuations > 0
    case _ => true
  }

  // ----- The object -----

  class StreamBasedExecutor<R, E> {
    const c: Config<E>
    var inFlight: int
    var index: nat
    var readEnded: bool
    const result: ResultSetGroup<R, E>
    var streamPaused: bool
    var promise: Settlement<E>
    ghost var executing: set<nat>
    ghost var continuations: nat

    ghost predicate Valid()
      reads this
    {
      result.collectResults == c.collectResults && result.maxErrors == c.maxErrors
    }

    ghost function View(): State<R, E>
      reads this, result
    {
      State(inFlight, index, readEnded, result.View(), streamPaused, promise, executing, continuations)
    }

    constructor (c: Config<E>)
      ensures Valid() && View() == Start() && this.c == c && fresh(result)
    {
      this.c := c;
      inFlight, index, readEnded, streamPaused, promise := 0, 0, false, false, Pending;
      result := new ResultSetGroup(c.collectResults, c.maxErrors);
      executing, continuations := {}, 0;
    }

    method ResolveCallback()
      modifies this`promise
      ensures View() == Settle(old(View()), Resolved)
    {
      if promise.Pending? {
        promise := Resolved;
      }
    }

    method RejectCallback(err: E)
      modifies this`promise
      ensures View() == Settle(old(View()), Rejected(err))
    {
      if promise.Pending? {
        promise := Rejected(err);
      }
    }

    method ExecuteOne(isArray: bool)
      requires Valid()
      modifies this
      ensures Valid() && View() == Step(c, old(View()), Data(isArray))
    {
      if !isArray {
        MarkReadEnded(Rejected(c.formatError));
        return;
      }
      if readEnded {
        // items after the end are not counted
        return;
      }
      executing := executing + {index};
      inFlight := inFlight + 1;
      index := index + 1;
      if inFlight >= c.concurrencyLevel {
        streamPaused := true;
      }
    }

    method OnSuccess(i: nat, rs: R)
      requires Valid() && i in executing
      modifies this, result
      ensures Valid() && View() == Step(c, old(View()), Succeeded(i, rs))
    {
      result.SetResultItem(i, rs);
      inFlight := inFlight - 1;
      executing, continuations := executing - {i}, continuations + 1;
    }

    method OnFailure(i: nat, err: E)
      requires Valid() && i in executing
      modifies this, result
      ensures Valid() && View() == Step(c, old(View()), Failed(i, err))
    {
      inFlight := inFlight - 1;
      SetError(i, err);
      executing, continuations := executing - {i}, continuations + 1;
    }

    method SetError(i: nat, err: E)
      requires Valid()
      modifies this`readEnded, this`promise, result
      ensures Valid()
      ensures var t := old(View()).(result := Add(old(result.View()), i, Failure(err), c.collectResults, c.maxErrors));
        View() == if c.raiseOnFirstError then Settle(t.(readEnded := true), Rejected(err)) else t
    {
      result.SetError(i, err);
      if c.raiseOnFirstError {
        readEnded := true;
        RejectCallback(err);
      }
    }

    method OnContinuation()
      requires Valid() && continuations > 0
      modifies this
      ensures Valid() && View() == Step(c, old(View()), Continued)
    {
      continuations := continuations - 1;
      if streamPaused {
        streamPaused := false;
      }
      if readEnded && inFlight == 0 {
        ResolveCallback();
      }
    }

    /** `_setReadEnded`, with an error or without one. */
    method MarkReadEnded(p: Settlement<E>)
      requires Valid()
      modifies this`readEnded, this`promise
      ensures Valid() && View() == SetReadEnded(old(View()), p)
    {
      if !readEnded {
        readEnded := true;
        if p.Rejected? {
          RejectCallback(p.err);
        } else if inFlight == 0 {
          ResolveCallback();
        }
      }
    }
  }

  // ----- Every run -----

  function After<R, E>(c: Config<E>, events: seq<Event<R, E>>, n: nat): State<R, E>
    requires n <= |events|
  {
    if n == 0 then Start() else Step(c, After(c, events, n - 1), events[n - 1])
  }

  ghost predicate Run<R, E>(c: Config<E>, events: seq<Event<R, E>>) {
    forall n: nat :: n < |events| ==> Enabled(After(c, events, n), events[n])
  }

  /** How each execution ended. */
  function Endings<R, E>(events: seq<Event<R, E>>, n: nat): map<nat, Item<R, E>>
    requires n <= |events|
  {
    if n == 0 then map[]
    else match events[n - 1]
      case Succeeded(i, rs) => Endings(events, n - 1)[i := Success(rs)]
      case Failed(i, err) => Endings(events, n - 1)[i := Failure(err)]
      case _ => Endings(events, n - 1)
  }

  /** The errors of executions, in order. */
  function Errors<R, E>(events: seq<Event<R, E>>, n: nat): seq<E>
    requires n <= |events|
  {
    if n == 0 then []
    else if events[n - 1].Failed? then Errors(events, n - 1) + [events[n - 1].err]
    else Errors(events, n - 1)
  }

  /** The indexes below n. */
  function Accepted(n: nat): (r: set<nat>)
    ensures forall i: nat :: i in r <==> i < n
  {
    if n == 0 then {} else Accepted(n - 1) + {n - 1}
  }

  /** An event that makes the whole fail. */
  predicate Stops<R, E>(c: Config<E>, e: Event<R, E>) {
    e.ReadFailed? || (e.Data? && !e.isArray) || (e.Failed? && c.raiseOnFirstError)
  }

  function ErrorOf<R, E>(c: Config<E>, e: Event<R, E>): E
    requires Stops(c, e)
  {
    match e
    case ReadFailed(err) => err
    case Failed(_, err) => err
    case Data(_) => c.formatError
  }

  /** A stop that counts: a failed execution always does, an error of the stream only before its end. */
  ghost predicate Effective<R, E>(c: Config<E>, events: seq<Event<R, E>>, k: nat) {
    k < |events| && Stops(c, events[k]) && (events[k].Failed? || forall j: nat :: j < k ==> !events[j].Ended?)
  }

  ghost predicate FirstStop<R, E>(c: Config<E>, events: seq<Event<R, E>>, k: nat) {
    Effective(c, events, k) && forall j: nat :: j < k ==> !Effective(c, events, j)
  }

  ghost predicate HasEnded<R, E>(events: seq<Event<R, E>>, n: nat)
    requires n <= |events|
  {
    exists k: nat :: k < n && events[k].Ended?
  }

  /** Counting: items accepted are executing or executed, never more at once than allowed. */
  ghost predicate Counted<R, E>(c: Config<E>, s: State<R, E>) {
    && s.result.totalExecuted + s.inFlight == s.index
    && |s.executing| == s.inFlight && s.executing <= Accepted(s.index)
    && (c.concurrencyLevel >= 1 ==>
          s.inFlight + s.continuations <= c.concurrencyLevel && (s.paused || s.inFlight < c.concurrencyLevel))
    && (s.paused ==> s.inFlight + s.continuations > 0 && s.inFlight + s.continuations >= c.concurrencyLevel)
  }

  /** What the result holds. */
  ghost predicate Collected<R, E>(c: Config<E>, events: seq<Event<R, E>>, n: nat, s: State<R, E>)
    requires n <= |events|
  {
    && Endings(events, n).Keys == Accepted(s.index) - s.executing
    && s.result.resultItems == (if c.collectResults then Endings(events, n) else map[])
    && s.result.errors == FirstOf(Errors(events, n), c.maxErrors)
  }

  /** What the promise says. */
  ghost predicate Settled<R, E>(c: Config<E>, events: seq<Event<R, E>>, n: nat, s: State<R, E>)
    requires n <= |events|
  {
    && (!s.readEnded ==> s.promise.Pending? && forall j: nat :: j < n ==> !Stops(c, events[j]) && !events[j].Ended?)
    && (s.readEnded && s.promise.Pending? ==> HasEnded(events, n) && s.inFlight + s.continuations > 0)
    && (!s.promise.Rejected? && c.raiseOnFirstError ==> Errors(events, n) == [])
    && (s.promise.Resolved? ==> HasEnded(events, n) && s.inFlight == 0)
    && match s.promise
       case Rejected(err) => exists k: nat :: k < n && FirstStop(c, events, k) && err == ErrorOf(c, events[k])
       case _ => forall k: nat :: k < n ==> !Effective(c, events, k)
  }

  lemma OneMore(index: nat, executing: set<nat>)
    requires executing <= Accepted(index)
    ensures executing + {index} <= Accepted(index + 1) && |executing + {index}| == |executing| + 1
  {
  }

  lemma OneLess(index: nat, executing: set<nat>, i: nat)
    requires executing <= Accepted(index) && i in executing
    ensures executing - {i} <= Accepted(index) && |executing - {i}| == |executing| - 1
  {
  }

  lemma SettleCounted<R, E>(c: Config<E>, s: State<R, E>, p: Settlement<E>, readEnded: bool)
    requires Counted(c, s)
    ensures Counted(c, Settle(s.(readEnded := readEnded), p)) && Counted(c, s.(readEnded := readEnded))
  {
    hide Accepted;
  }

  lemma {:induction false} FinishCounted<R, E>(c: Config<E>, s: State<R, E>, i: nat, item: Item<R, E>)
    requires Counted(c, s) && i in s.executing
    ensures Counted(c, Finish(c, s, i, item))
  {
    OneLess(s.index, s.executing, i);
    FinishCounts(c, s, i, item);
    hide Add, Accepted;
  }

  lemma {:induction false} CountedKept<R, E>(c: Config<E>, s: State<R, E>, e: Event<R, E>)
    requires Counted(c, s) && Enabled(s, e)
    ensures Counted(c, Step(c, s, e))
  {
    match e
    case Data(isArray) =>
      if isArray {
        hide Accepted, Add;
        OneMore(s.index, s.executing);
      } else {
        SettleCounted(c, s, Rejected(c.formatError), true);
      }
    case Succeeded(i, rs) => FinishCounted(c, s, i, Success(rs));
    case Failed(i, err) =>
      FinishCounted(c, s, i, Failure(err));
      hide Counted, Finish;
      SettleCounted(c, Finish(c, s, i, Failure(err)), Rejected(err), true);
    case Continued =>
      hide Accepted;
    case Ended => SettleCounted(c, s, Resolved, true);
    case ReadFailed(err) => SettleCounted(c, s, Rejected(err), true);
  }

  lemma FinishCounts<R, E>(c: Config<E>, s: State<R, E>, i: nat, item: Item<R, E>)
    ensures Finish(c, s, i, item).result.totalExecuted == s.result.totalExecuted + 1
  {
  }

  lemma AcceptsOne(index: nat, executing: set<nat>)
    requires executing <= Accepted(index)
    ensures Accepted(index + 1) - (executing + {index}) == Accepted(index) - executing
  {
  }

  lemma EndsOne(index: nat, executing: set<nat>, i: nat)
    requires executing <= Accepted(index) && i in executing
    ensures Accepted(index) - (executing - {i}) == Accepted(index) - executing + {i}
  {
  }

  lemma {:induction false} EndingsKept<R, E>(c: Config<E>, events: seq<Event<R, E>>, n: nat, s: State<R, E>)
    requires n < |events| && s.executing <= Accepted(s.index) && Enabled(s, events[n])
    requires Endings(events, n).Keys == Accepted(s.index) - s.executing
    ensures var t := Step(c, s, events[n]);
      Endings(events, n + 1).Keys == Accepted(t.index) - t.executing
  {
    hide Accepted, Add;
    match events[n]
    case Succeeded(i, _) => EndsOne(s.index, s.executing, i);
    case Failed(i, _) => EndsOne(s.index, s.executing, i);
    case Data(_) => AcceptsOne(s.index, s.executing);
    case _ =>
  }

  lemma {:induction false} ItemsKept<R, E>(c: Config<E>, events: seq<Event<R, E>>, n: nat, s: State<R, E>)
    requires n < |events| && s.result.resultItems == if c.collectResults then Endings(events, n) else map[]
    ensures Step(c, s, events[n]).result.resultItems == if c.collectResults then Endings(events, n + 1) else map[]
  {
  }

  lemma {:induction false} ErrorsKept<R, E>(c: Config<E>, events: seq<Event<R, E>>, n: nat, s: State<R, E>)
    requires n < |events| && s.result.errors == FirstOf(Errors(events, n), c.maxErrors)
    ensures Step(c, s, events[n]).result.errors == FirstOf(Errors(events, n + 1), c.maxErrors)
  {
    hide Enabled, Counted;
    var before, e := Errors(events, n), events[n];
    if e.Failed? {
      var after := before + [e.err];
      assert Errors(events, n + 1) == after;
      assert |before| >= c.maxErrors ==> after[..c.maxErrors] == before[..c.maxErrors];
    }
  }

  lemma {:induction false} CollectedKept<R, E>(c: Config<E>, events: seq<Event<R, E>>, n: nat, s: State<R, E>)
    requires n < |events| && Counted(c, s) && Collected(c, events, n, s) && Enabled(s, events[n])
    ensures Collected(c, events, n + 1, Step(c, s, events[n]))
  {
    hide Step, Endings, Errors, Accepted, Enabled;
    EndingsKept(c, events, n, s);
    ItemsKept(c, events, n, s);
    ErrorsKept(c, events, n, s);
  }

  lemma {:induction false} SettledKept<R, E>(c: Config<E>, events: seq<Event<R, E>>, n: nat, s: State<R, E>)
    requires n < |events| && Counted(c, s) && Settled(c, events, n, s) && Enabled(s, events[n])
    ensures Settled(c, events, n + 1, Step(c, s, events[n]))
  {
    var e := events[n];
    EndStays(events, n);
    if !s.promise.Rejected? {
      EffectiveNow(c, events, n, s);
    }
    if s.promise.Rejected? {
      var k: nat :| k < n && FirstStop(c, events, k) && s.promise.err == ErrorOf(c, events[k]);
    } else if Effective(c, events, n) {
      assert FirstStop(c, events, n);
    }
    hide Effective, HasEnded, Add;
    if e.Succeeded? || e.Failed? {
      assert s.inFlight > 0;
    }
  }

  lemma EndStays<R, E>(events: seq<Event<R, E>>, n: nat)
    requires n < |events|
    ensures HasEnded(events, n + 1) <==> HasEnded(events, n) || events[n].Ended?
  {
  }

  /** An error of the stream counts exactly when reading has not ended. */
  lemma EffectiveNow<R, E>(c: Config<E>, events: seq<Event<R, E>>, n: nat, s: State<R, E>)
    requires n < |events| && Settled(c, events, n, s) && !s.promise.Rejected?
    ensures Effective(c, events, n) <==> Stops(c, events[n]) && (events[n].Failed? || !s.readEnded)
  {
  }

  lemma StartState<R, E>(c: Config<E>, events: seq<Event<R, E>>)
    ensures Counted<R, E>(c, Start()) && Collected(c, events, 0, Start()) && Settled(c, events, 0, Start())
  {
  }

  lemma {:induction false} EveryState<R, E>(c: Config<E>, events: seq<Event<R, E>>, n: nat)
    requires Run(c, events) && n <= |events|
    ensures Counted(c, After(c, events, n))
    ensures Collected(c, events, n, After(c, events, n))
    ensures Settled(c, events, n, After(c, events, n))
    decreases n
  {
    hide Step, Counted, Collected, Settled, Enabled;
    if n == 0 {
      StartState(c, events);
    } else {
      var s := After(c, events, n - 1);
      EveryState(c, events, n - 1);
      CountedKept(c, s, events[n - 1]);
      CollectedKept(c, events, n - 1, s);
      SettledKept(c, events, n - 1, s);
    }
  }

  /**
   In every run: what has been executed and what is in flight are all the items accepted; no more are in
   flight than allowed; the stream is paused when as many are, and stays so only until one of them has ended
   and its continuation has run; and once reading has ended and nothing is left to run, the user has an answer.
   */
  lemma {:induction false} RunsAreBounded<R, E>(c: Config<E>, events: seq<Event<R, E>>)
    requires Run(c, events)
    ensures var s := After(c, events, |events|);
      && s.result.totalExecuted + s.inFlight == s.index
      && (c.concurrencyLevel >= 1 ==> 0 <= s.inFlight <= c.concurrencyLevel)
      && (c.concurrencyLevel >= 1 && s.inFlight == c.concurrencyLevel ==> s.paused)
      && (s.paused ==> s.inFlight + s.continuations >= c.concurrencyLevel && (s.inFlight > 0 || s.continuations > 0))
      && (s.readEnded && s.inFlight == 0 && s.continuations == 0 ==> !s.promise.Pending?)
  {
    EveryState(c, events, |events|);
  }

  /**
   The promise is rejected exactly when something that counts made the whole fail, with the error of the first
   such event. It is resolved only after the stream has ended, when every item accepted has been executed and
   stands at its own index, without an error if errors are raised. The result holds the first errors that
   occurred, as many as are to be kept.
   */
  lemma {:induction false} SettlementIsRight<R, E>(c: Config<E>, events: seq<Event<R, E>>)
    requires Run(c, events)
    ensures var s := After(c, events, |events|);
      && (s.promise.Rejected? <==> exists k: nat :: Effective(c, events, k))
      && (forall k: nat :: FirstStop(c, events, k) ==> s.promise == Rejected(ErrorOf(c, events[k])))
      && (s.promise.Resolved? ==>
            && HasEnded(events, |events|) && s.result.totalExecuted == s.index
            && Endings(events, |events|).Keys == Accepted(s.index)
            && (c.collectResults ==> s.result.resultItems == Endings(events, |events|))
            && (c.raiseOnFirstError ==> Errors(events, |events|) == []))
      && s.result.errors == FirstOf(Errors(events, |events|), c.maxErrors)
  {
    EveryState(c, events, |events|);
    var s := After(c, events, |events|);
    OnlyFirstStop(c, events, s);
    if s.promise.Resolved? {
      assert s.executing == {};
    }
  }

  lemma OnlyFirstStop<R, E>(c: Config<E>, events: seq<Event<R, E>>, s: State<R, E>)
    requires Settled(c, events, |events|, s)
    ensures s.promise.Rejected? <==> exists k: nat :: Effective(c, events, k)
    ensures forall k: nat :: FirstStop(c, events, k) ==> s.promise == Rejected(ErrorOf(c, events[k]))
  {
    hide Errors, HasEnded;
    forall k: nat | FirstStop(c, events, k)
      ensures s.promise == Rejected(ErrorOf(c, events[k]))
    {
      assert s.promise.Rejected?;
      var l: nat :| FirstStop(c, events, l) && s.promise.err == ErrorOf(c, events[l]);
      FirstIsOne(c, events, k, l);
    }
  }

  lemma FirstIsOne<R, E>(c: Config<E>, events: seq<Event<R, E>>, k: nat, l: nat)
    requires FirstStop(c, events, k) && FirstStop(c, events, l)
    ensures k == l
  {
  }

  /** At rest the promise is rejected if anything that counts failed, resolved if the stream has ended, and pending otherwise. */
  lemma {:induction false} SettledAtRest<R, E>(c: Config<E>, events: seq<Event<R, E>>)
    requires Run(c, events)
    requires var s := After(c, events, |events|);
      s.inFlight == 0 && s.continuations == 0
    ensures var s := After(c, events, |events|);
      && (s.promise.Rejected? <==> exists k: nat :: Effective(c, events, k))
      && (s.promise.Resolved? <==> HasEnded(events, |events|) && forall k: nat :: !Effective(c, events, k))
  {
    EveryState(c, events, |events|);
    OnlyFirstStop(c, events, After(c, events, |events|));
  }

  /** Two endings of one item do not occur: an ending is never replaced. */
  lemma {:induction false} EndsOnce<R, E>(c: Config<E>, events: seq<Event<R, E>>, n: nat)
    requires Run(c, events) && n < |events| && (events[n].Succeeded? || events[n].Failed?)
    ensures events[n].i !in Endings(events, n) && events[n].i < After(c, events, n).index
  {
    EveryState(c, events, n);
  }
}
