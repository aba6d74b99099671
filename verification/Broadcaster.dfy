/**
 The "latest value" channel as a protocol: the critical sections of its methods as
 functions, and the machine that interleaves them over any number of listeners.
 */
module BroadcastProtocol {
  import opened Common

  /** The fields the mutex protects. */
  datatype Shared<T> = Shared(generation: uint64, value: T, closed: bool)

  /** What one critical section of Wait ends in. */
  datatype Outcome<T> =
    | Blocks
    | Delivers(generation: uint64, value: T)
    | ReportsClosed
    | Panics

  /** The generation counter is a uint64: it wraps. */
  function Publish<T>(b: Shared<T>, v: T): Shared<T> {
    Shared((b.generation + 1) % TWO_64, v, b.closed)
  }

  function Shut<T>(b: Shared<T>): Shared<T> {
    b.(closed := true)
  }

  /** Wait from the lock to its return or to the condition wait. */
  function Enter<T>(b: Shared<T>, last: uint64): Outcome<T> {
    if b.closed then ReportsClosed
    else if b.generation <= last then Blocks
    else Delivers(b.generation, b.value)
  }

  /** Wait from the moment the condition wait has the lock back. The test is not repeated in a loop. */
  function Resume<T>(b: Shared<T>, last: uint64): Outcome<T> {
    if b.generation > last then Delivers(b.generation, b.value)
    else if b.closed then ReportsClosed
    else Panics
  }

  // ---------------------------------------------------------------- the machine

  type Goroutine = nat
  type Handle = nat

  /** A Wait that reached its condition wait and has not returned. */
  datatype Call = Call(listener: Handle, woken: bool)

  datatype System<T> = System(
    shared: Shared<T>,
    last: map<Handle, uint64>,
    calls: map<Goroutine, Call>,
    crashed: bool,
    published: seq<T>,
    log: map<Handle, seq<Outcome<T>>>)

  datatype Step<T> =
    | DoBroadcast(value: T)
    | DoClose
    | DoListener(h: Handle)
    | DoEnter(g: Goroutine, h: Handle)
    | DoResume(g: Goroutine)

  function Initial<T>(zero: T): System<T> {
    System(Shared(0, zero, false), map[], map[], false, [], map[])
  }

  function WakeAll(calls: map<Goroutine, Call>): map<Goroutine, Call> {
    map g | g in calls :: calls[g].(woken := true)
  }

  ghost predicate WellFormed<T>(s: System<T>) {
    && s.log.Keys == s.last.Keys
    && (forall g :: g in s.calls ==> s.calls[g].listener in s.last)
  }

  /** A goroutine runs one call at a time, a condition wait ends only when woken, and a panic ends the process. */
  predicate Enabled<T>(s: System<T>, step: Step<T>) {
    && !s.crashed
    && match step
       case DoBroadcast(_) => true
       case DoClose => true
       case DoListener(h) => h !in s.last
       case DoEnter(g, h) => g !in s.calls && h in s.last
       case DoResume(g) => g in s.calls && s.calls[g].woken
  }

  function Finish<T>(s: System<T>, h: Handle, o: Outcome<T>): System<T>
    requires h in s.log
  {
    match o
    case Delivers(generation, _) => s.(last := s.last[h := generation], log := s.log[h := s.log[h] + [o]])
    case ReportsClosed => s.(log := s.log[h := s.log[h] + [o]])
    case Panics => s.(crashed := true)
    case Blocks => s
  }

  ghost function Next<T>(s: System<T>, step: Step<T>): System<T>
    requires WellFormed(s) && Enabled(s, step)
  {
    match step
    case DoBroadcast(v) =>
      s.(shared := Publish(s.shared, v), calls := WakeAll(s.calls), published := s.published + [v])
    case DoClose =>
      s.(shared := Shut(s.shared), calls := WakeAll(s.calls))
    case DoListener(h) =>
      s.(last := s.last[h := 0], log := s.log[h := []])
    case DoEnter(g, h) =>
      var o := Enter(s.shared, s.last[h]);
      if o.Blocks? then s.(calls := s.calls[g := Call(h, false)]) else Finish(s, h, o)
    case DoResume(g) =>
      var h := s.calls[g].listener;
      Finish(s.(calls := s.calls - {g}), h, Resume(s.shared, s.last[h]))
  }

  lemma NextWellFormed<T>(s: System<T>, step: Step<T>)
    requires WellFormed(s) && Enabled(s, step)
    ensures WellFormed(Next(s, step))
  {
  }

  ghost predicate Runs<T>(s: System<T>, steps: seq<Step<T>>)
    requires WellFormed(s)
    decreases |steps|
  {
    steps == [] ||
    (Enabled(s, steps[0]) &&
     (NextWellFormed(s, steps[0]); Runs(Next(s, steps[0]), steps[1..])))
  }

  ghost function Run<T>(s: System<T>, steps: seq<Step<T>>): (r: System<T>)
    requires WellFormed(s) && Runs(s, steps)
    ensures WellFormed(r)
    decreases |steps|
  {
    if steps == [] then s
    else
      NextWellFormed(s, steps[0]);
      Run(Next(s, steps[0]), steps[1..])
  }

  /** Each listener is used by one goroutine at a time. */
  ghost predicate Unshared<T>(s: System<T>, step: Step<T>) {
    step.DoEnter? ==> forall g :: g in s.calls ==> s.calls[g].listener != step.h
  }

  ghost predicate UnsharedRun<T>(s: System<T>, steps: seq<Step<T>>)
    requires WellFormed(s) && Runs(s, steps)
    decreases |steps|
  {
    steps == [] ||
    (Unshared(s, steps[0]) &&
     (NextWellFormed(s, steps[0]); UnsharedRun(Next(s, steps[0]), steps[1..])))
  }

  function Broadcasts<T>(steps: seq<Step<T>>): nat {
    if steps == [] then 0
    else (if steps[0].DoBroadcast? then 1 else 0) + Broadcasts(steps[1..])
  }

  // ---------------------------------------------------------------- the invariant

  /** Deliveries of rising generation, each the value published at that generation; then only Closed. */
  ghost predicate GoodLog<T>(log: seq<Outcome<T>>, published: seq<T>) {
    && (forall i :: 0 <= i < |log| ==> log[i].Delivers? || log[i].ReportsClosed?)
    && (forall i :: 0 <= i < |log| && log[i].Delivers? ==>
          && 1 <= log[i].generation <= |published|
          && log[i].value == published[log[i].generation - 1])
    && (forall i, j :: 0 <= i < j < |log| && log[i].ReportsClosed? ==> log[j].ReportsClosed?)
    && (forall i, j :: 0 <= i < j < |log| && log[i].Delivers? && log[j].Delivers? ==>
          log[i].generation < log[j].generation)
  }

  /** `last` is the generation of the listener's latest delivery, 0 before its first. */
  ghost predicate LastIsLogged<T>(log: seq<Outcome<T>>, last: uint64) {
    && (forall i :: 0 <= i < |log| && log[i].Delivers? ==> log[i].generation <= last)
    && (last != 0 ==> exists i :: 0 <= i < |log| && log[i].Delivers? && log[i].generation == last)
  }

  ghost predicate GoodListener<T>(s: System<T>, h: Handle)
    requires h in s.last && h in s.log
  {
    && s.last[h] <= s.shared.generation
    && GoodLog(s.log[h], s.published)
    && LastIsLogged(s.log[h], s.last[h])
    && (!s.shared.closed ==> forall i :: 0 <= i < |s.log[h]| ==> s.log[h][i].Delivers?)
  }

  /** A sleeper is up to date on an open channel; a woken caller has a reason to return. */
  ghost predicate GoodCall<T>(s: System<T>, g: Goroutine)
    requires g in s.calls && s.calls[g].listener in s.last && s.calls[g].listener in s.log
  {
    var h := s.calls[g].listener;
    && (!s.calls[g].woken ==> s.last[h] == s.shared.generation && !s.shared.closed)
    && (s.calls[g].woken ==> s.last[h] < s.shared.generation || s.shared.closed)
    && (forall i :: 0 <= i < |s.log[h]| ==> s.log[h][i].Delivers?)
  }

  ghost predicate Inv<T>(s: System<T>) {
    && WellFormed(s)
    && !s.crashed
    && s.shared.generation == |s.published|
    && (s.published != [] ==> s.shared.value == s.published[|s.published| - 1])
    && (forall h :: h in s.last ==> GoodListener(s, h))
    && (forall g :: g in s.calls ==> GoodCall(s, g))
    && (forall g, g' :: g in s.calls && g' in s.calls && g != g' ==> s.calls[g].listener != s.calls[g'].listener)
  }

  lemma FinishKeepsListener<T>(s: System<T>, h: Handle, o: Outcome<T>)
    requires WellFormed(s) && h in s.last && GoodListener(s, h)
    requires s.shared.generation == |s.published|
    requires s.published != [] ==> s.shared.value == s.published[|s.published| - 1]
    requires o == Delivers(s.shared.generation, s.shared.value) || o == ReportsClosed
    requires o.Delivers? ==> s.last[h] < s.shared.generation && forall i :: 0 <= i < |s.log[h]| ==> s.log[h][i].Delivers?
    requires o.ReportsClosed? ==> s.shared.closed
    ensures GoodListener(Finish(s, h, o), h)
  {
    var log := s.log[h];
    var log' := log + [o];
    assert Finish(s, h, o).log[h] == log';
    assert forall i :: 0 <= i < |log| ==> log'[i] == log[i];
    assert log'[|log|] == o;
  }

  lemma PublishKeepsInv<T>(s: System<T>, v: T)
    requires Inv(s) && |s.published| + 1 < TWO_64
    ensures Inv(Next(s, DoBroadcast(v)))
  {
  }

  lemma CloseKeepsInv<T>(s: System<T>)
    requires Inv(s)
    ensures Inv(Next(s, DoClose))
  {
  }

  lemma ListenerKeepsInv<T>(s: System<T>, h0: Handle)
    requires Inv(s) && h0 !in s.last
    ensures Inv(Next(s, DoListener(h0)))
  {
    var s' := Next(s, DoListener(h0));
    forall h | h in s'.last ensures GoodListener(s', h) { assert h != h0 ==> GoodListener(s, h); }
    forall g | g in s'.calls ensures GoodCall(s', g) { assert GoodCall(s, g); }
  }

  lemma FinishKeepsInv<T>(s: System<T>, h0: Handle, o: Outcome<T>)
    requires Inv(s) && h0 in s.last
    requires forall g :: g in s.calls ==> s.calls[g].listener != h0
    requires o == Delivers(s.shared.generation, s.shared.value) || o == ReportsClosed
    requires o.Delivers? ==> s.last[h0] < s.shared.generation && forall i :: 0 <= i < |s.log[h0]| ==> s.log[h0][i].Delivers?
    requires o.ReportsClosed? ==> s.shared.closed
    ensures Inv(Finish(s, h0, o))
  {
    hide GoodLog, LastIsLogged;
    assert GoodListener(s, h0);
    FinishKeepsListener(s, h0, o);
    var s' := Finish(s, h0, o);
    forall h | h in s'.last ensures GoodListener(s', h) {
      if h != h0 { assert GoodListener(s, h); }
    }
    forall g | g in s'.calls ensures GoodCall(s', g) {
      assert GoodCall(s, g);
    }
  }

  lemma BlockKeepsInv<T>(s: System<T>, g0: Goroutine, h0: Handle)
    requires Inv(s) && Enabled(s, DoEnter(g0, h0)) && Unshared(s, DoEnter(g0, h0))
    requires Enter(s.shared, s.last[h0]).Blocks?
    ensures Inv(s.(calls := s.calls[g0 := Call(h0, false)]))
  {
  }

  lemma ReturnKeepsInv<T>(s: System<T>, g0: Goroutine)
    requires Inv(s) && g0 in s.calls
    ensures Inv(s.(calls := s.calls - {g0}))
  {
  }

  lemma EnterKeepsInv<T>(s: System<T>, g0: Goroutine, h0: Handle)
    requires Inv(s) && Enabled(s, DoEnter(g0, h0)) && Unshared(s, DoEnter(g0, h0))
    ensures Inv(Next(s, DoEnter(g0, h0)))
  {
    hide GoodLog, LastIsLogged;
    assert GoodListener(s, h0);
    var o := Enter(s.shared, s.last[h0]);
    if o.Blocks? {
      BlockKeepsInv(s, g0, h0);
    } else {
      FinishKeepsInv(s, h0, o);
    }
  }

  lemma ResumeKeepsInv<T>(s: System<T>, g0: Goroutine)
    requires Inv(s) && Enabled(s, DoResume(g0))
    ensures Inv(Next(s, DoResume(g0)))
  {
    hide GoodLog, LastIsLogged;
    assert GoodCall(s, g0);
    var h0 := s.calls[g0].listener;
    ReturnKeepsInv(s, g0);
    FinishKeepsInv(s.(calls := s.calls - {g0}), h0, Resume(s.shared, s.last[h0]));
  }

  lemma NextKeepsInv<T>(s: System<T>, step: Step<T>)
    requires Inv(s) && Enabled(s, step) && Unshared(s, step)
    requires step.DoBroadcast? ==> |s.published| + 1 < TWO_64
    ensures Inv(Next(s, step))
  {
    match step
    case DoBroadcast(v) => PublishKeepsInv(s, v);
    case DoClose => CloseKeepsInv(s);
    case DoListener(h) => ListenerKeepsInv(s, h);
    case DoEnter(g, h) => EnterKeepsInv(s, g, h);
    case DoResume(g) => ResumeKeepsInv(s, g);
  }

  lemma {:induction false} RunKeepsInv<T>(s: System<T>, steps: seq<Step<T>>)
    requires Inv(s) && Runs(s, steps) && UnsharedRun(s, steps)
    requires |s.published| + Broadcasts(steps) < TWO_64
    ensures Inv(Run(s, steps))
    ensures |Run(s, steps).published| == |s.published| + Broadcasts(steps)
    decreases |steps|
  {
    if steps != [] {
      NextKeepsInv(s, steps[0]);
      RunKeepsInv(Next(s, steps[0]), steps[1..]);
    }
  }

  // ---------------------------------------------------------------- main results

  /** Safety over every interleaving: no panic, no stale or invented value, no value out of order. */
  lemma EveryRunIsSafe<T>(zero: T, steps: seq<Step<T>>)
    requires Runs(Initial(zero), steps) && UnsharedRun(Initial(zero), steps)
    requires Broadcasts(steps) < TWO_64
    ensures var s := Run(Initial(zero), steps);
            && !s.crashed
            && (forall h :: h in s.log ==> GoodLog(s.log[h], s.published))
  {
    RunKeepsInv(Initial(zero), steps);
    var s := Run(Initial(zero), steps);
    forall h | h in s.log ensures GoodLog(s.log[h], s.published) { assert GoodListener(s, h); }
  }

  function Values<T>(log: seq<Outcome<T>>): seq<T> {
    if log == [] then [] else (if log[0].Delivers? then [log[0].value] else []) + Values(log[1..])
  }

  function Positions<T>(log: seq<Outcome<T>>): seq<int> {
    if log == [] then [] else (if log[0].Delivers? then [log[0].generation - 1] else []) + Positions(log[1..])
  }

  lemma {:induction false} PositionsFrom<T>(log: seq<Outcome<T>>, bound: int)
    requires forall i :: 0 <= i < |log| && log[i].Delivers? ==> bound <= log[i].generation - 1
    ensures forall i :: 0 <= i < |Positions(log)| ==> bound <= Positions(log)[i]
  {
    if log != [] {
      PositionsFrom(log[1..], bound);
    }
  }

  /** A listener sees some of the published values, each at most once and in publication order. */
  lemma {:induction false} LogPicksInOrder<T>(log: seq<Outcome<T>>, published: seq<T>)
    requires GoodLog(log, published)
    ensures PicksInOrder(Positions(log), Values(log), published)
  {
    if log != [] {
      var rest := log[1..];
      assert forall i :: 0 <= i < |rest| ==> rest[i] == log[i + 1];
      LogPicksInOrder(rest, published);
      if log[0].Delivers? {
        PositionsFrom(rest, log[0].generation);
      }
    }
  }

  lemma EveryListenerSeesASubsequence<T>(zero: T, steps: seq<Step<T>>, h: Handle)
    requires Runs(Initial(zero), steps) && UnsharedRun(Initial(zero), steps)
    requires Broadcasts(steps) < TWO_64
    requires h in Run(Initial(zero), steps).log
    ensures Subsequence(Values(Run(Initial(zero), steps).log[h]), Run(Initial(zero), steps).published)
  {
    EveryRunIsSafe(zero, steps);
    var s := Run(Initial(zero), steps);
    LogPicksInOrder(s.log[h], s.published);
  }

  /** A step by whoever is using listener `h`. */
  predicate StepOf<T>(s: System<T>, step: Step<T>, h: Handle) {
    || (step.DoEnter? && step.h == h)
    || (step.DoResume? && step.g in s.calls && s.calls[step.g].listener == h)
  }

  /** Nobody sleeps on `h`, and the next step its user takes returns `o` to it. */
  ghost predicate NextStepGives<T(!new)>(s: System<T>, h: Handle, o: Outcome<T>)
    requires WellFormed(s) && h in s.last
  {
    && (forall g :: g in s.calls && s.calls[g].listener == h ==> s.calls[g].woken)
    && (forall step :: StepOf(s, step, h) && Enabled(s, step) && Unshared(s, step) ==>
          Next(s, step).log[h] == s.log[h] + [o])
  }

  /**
   No update is lost. In every reachable state a listener either already holds the newest value, or
   its very next step returns: with the newest value, or with Closed once the channel is closed and
   the call is a new one; a call woken behind an update gets that update even on a closed channel.
   Nobody sleeps through an update or through Close.
   */
  lemma NoUpdateIsLost<T(!new)>(zero: T, steps: seq<Step<T>>, h: Handle)
    requires Runs(Initial(zero), steps) && UnsharedRun(Initial(zero), steps)
    requires Broadcasts(steps) < TWO_64
    requires h in Run(Initial(zero), steps).last
    ensures var s := Run(Initial(zero), steps);
            && s.shared.generation == |s.published|
            && (s.published != [] ==> s.shared.value == s.published[|s.published| - 1])
            && (forall g :: g in s.calls && !s.calls[g].woken ==>
                  s.last[s.calls[g].listener] == s.shared.generation && !s.shared.closed)
            && (!s.shared.closed && s.last[h] < |s.published| ==>
                  NextStepGives(s, h, Delivers(s.shared.generation, s.shared.value)))
            && (s.shared.closed && s.last[h] < |s.published| && (exists g :: g in s.calls && s.calls[g].listener == h) ==>
                  NextStepGives(s, h, Delivers(s.shared.generation, s.shared.value)))
            && (s.last[h] == |s.published| != 0 ==>
                  exists i :: 0 <= i < |s.log[h]| && s.log[h][i] == Delivers(s.shared.generation, s.shared.value))
            && (s.shared.closed && (s.last[h] == |s.published| || forall g :: g in s.calls ==> s.calls[g].listener != h) ==>
                  NextStepGives(s, h, ReportsClosed))
  {
    hide Runs, Run, UnsharedRun;
    RunKeepsInv(Initial(zero), steps);
    var s := Run(Initial(zero), steps);
    assert GoodListener(s, h);
    forall g | g in s.calls ensures GoodCall(s, g) {}
  }

  // ---------------------------------------------------------------- where the promise ends

  /** The bound of 2^64 publications is tight. */
  ghost function Repeat<T>(v: T, n: nat): (r: seq<Step<T>>) {
    if n == 0 then [] else [DoBroadcast(v)] + Repeat(v, n - 1)
  }

  lemma {:induction false} RunAppend<T>(s: System<T>, a: seq<Step<T>>, b: seq<Step<T>>)
    requires WellFormed(s) && Runs(s, a) && Runs(Run(s, a), b)
    ensures Runs(s, a + b) && Run(s, a + b) == Run(Run(s, a), b)
    ensures UnsharedRun(s, a) && UnsharedRun(Run(s, a), b) ==> UnsharedRun(s, a + b)
    ensures Broadcasts(a + b) == Broadcasts(a) + Broadcasts(b)
    decreases |a|
  {
    if a == [] {
      assert a + b == b;
    } else {
      assert (a + b)[1..] == a[1..] + b;
      NextWellFormed(s, a[0]);
      RunAppend(Next(s, a[0]), a[1..], b);
    }
  }

  lemma {:induction false} RepeatRuns<T>(s: System<T>, v: T, n: nat)
    requires WellFormed(s) && !s.crashed
    ensures Runs(s, Repeat(v, n)) && UnsharedRun(s, Repeat(v, n)) && Broadcasts(Repeat(v, n)) == n
    ensures var r := Run(s, Repeat(v, n));
            && r.shared.generation == (s.shared.generation + n) % TWO_64
            && r.shared.closed == s.shared.closed
            && r.last == s.last && r.log == s.log && r.calls == (if n == 0 then s.calls else WakeAll(s.calls)) && !r.crashed
    decreases n
  {
    if n != 0 {
      hide Runs, Run, UnsharedRun, Broadcasts, WakeAll;
      var step: Step<T> := DoBroadcast(v);
      NextWellFormed(s, step);
      WakingTwice(s.calls);
      CountingOn(s.shared.generation, n);
      RepeatRuns(Next(s, step), v, n - 1);
      Prepend(s, step, Repeat(v, n - 1));
    }
  }

  lemma CountingOn(generation: nat, n: nat)
    requires n > 0
    ensures ((generation + 1) % TWO_64 + (n - 1)) % TWO_64 == (generation + n) % TWO_64
  {
  }

  lemma WakingTwice(calls: map<Goroutine, Call>)
    ensures WakeAll(WakeAll(calls)) == WakeAll(calls)
  {
  }

  /** One step in front of a run, for concrete traces. */
  lemma Prepend<T>(s: System<T>, step: Step<T>, rest: seq<Step<T>>)
    requires WellFormed(s) && Enabled(s, step)
    requires WellFormed(Next(s, step)) ==> Runs(Next(s, step), rest)
    ensures WellFormed(Next(s, step)) && Runs(s, [step] + rest)
    ensures Run(s, [step] + rest) == Run(Next(s, step), rest)
    ensures UnsharedRun(s, [step] + rest) <==> Unshared(s, step) && UnsharedRun(Next(s, step), rest)
    ensures Broadcasts([step] + rest) == (if step.DoBroadcast? then 1 else 0) + Broadcasts(rest)
  {
  }

  lemma Single<T>(s: System<T>, step: Step<T>)
    requires WellFormed(s) && Enabled(s, step)
    ensures WellFormed(Next(s, step)) && Runs(s, [step]) && Run(s, [step]) == Next(s, step)
    ensures UnsharedRun(s, [step]) <==> Unshared(s, step)
    ensures Broadcasts([step]) == if step.DoBroadcast? then 1 else 0
  {
  }

  /** From the last generation before the wrap, asleep and up to date: any number of further publications panics it. */
  lemma WrapPanics<T>(s: System<T>, v: T, n: nat) returns (c: seq<Step<T>>)
    requires WellFormed(s) && !s.crashed && s.calls == map[] && 0 in s.last && n > 0
    requires s.last[0] == 0 && s.shared.generation == TWO_64 - 1 && !s.shared.closed
    ensures Runs(s, c) && UnsharedRun(s, c) && Broadcasts(c) == n && Run(s, c).crashed
  {
    hide Runs, Run, UnsharedRun, Broadcasts, Repeat;
    var s1 := Next(s, DoEnter(0, 0));
    var s2 := Next(s1, DoEnter(0, 0));
    assert s2.calls == map[0 := Call(0, false)];
    RepeatRuns(s2, v, n);
    var b := Repeat(v, n);
    var s3 := Run(s2, b);
    assert s3.calls == map[0 := Call(0, true)];
    Single(s3, DoResume(0));
    RunAppend(s2, b, [DoResume(0)]);
    c := b + [DoResume(0)];
    Prepend(s1, DoEnter(0, 0), c);
    c := [DoEnter(0, 0)] + c;
    Prepend(s, DoEnter(0, 0), c);
    c := [DoEnter(0, 0)] + c;
  }

  /** An unshared run with n publications that panics. */
  ghost predicate Panicking<T>(v: T, steps: seq<Step<T>>, n: nat) {
    && Runs(Initial(v), steps) && UnsharedRun(Initial(v), steps)
    && Broadcasts(steps) == n && Run(Initial(v), steps).crashed
  }

  /** n publications can panic a listener of its own if and only if they wrap the counter. */
  lemma PanicsIffWrapped<T(!new)>(v: T, n: nat)
    ensures (exists steps: seq<Step<T>> :: Panicking(v, steps, n)) <==> n >= TWO_64
  {
    if n < TWO_64 {
      forall steps: seq<Step<T>>
        ensures !Panicking(v, steps, n)
      {
        if Runs(Initial(v), steps) && UnsharedRun(Initial(v), steps) && Broadcasts(steps) == n {
          EveryRunIsSafe(v, steps);
        }
      }
    } else {
      var steps := PanickingRun(v, n);
    }
  }

  lemma PanickingRun<T>(v: T, n: nat) returns (steps: seq<Step<T>>)
    requires n >= TWO_64
    ensures Panicking(v, steps, n)
  {
    hide Runs, Run, UnsharedRun, Broadcasts, Repeat;
    var s0 := Initial(v);
    var s1 := Next(s0, DoListener(0));
    RepeatRuns(s1, v, TWO_64 - 1);
    var b := Repeat(v, TWO_64 - 1);
    var c := WrapPanics(Run(s1, b), v, n - TWO_64 + 1);
    RunAppend(s1, b, c);
    Prepend(s0, DoListener(0), b + c);
    steps := [DoListener(0)] + (b + c);
  }

  /** A listener shared by two goroutines panics after a single publication. */
  lemma SharedListenerPanics<T>(v: T) returns (c: seq<Step<T>>)
    ensures Runs(Initial(v), c) && !UnsharedRun(Initial(v), c)
    ensures Broadcasts(c) == 1 && Run(Initial(v), c).crashed
  {
    hide Runs, Run, UnsharedRun, Broadcasts;
    var s0 := Initial(v);
    var s1 := Next(s0, DoListener(0));
    var s2 := Next(s1, DoEnter(0, 0));
    var s3 := Next(s2, DoEnter(1, 0));
    var s4 := Next(s3, DoBroadcast(v));
    var s5 := Next(s4, DoResume(0));
    assert 0 in s2.calls && s2.calls[0].listener == 0;
    Single(s5, DoResume(1));
    c := [DoResume(1)];
    Prepend(s4, DoResume(0), c);
    c := [DoResume(0)] + c;
    Prepend(s3, DoBroadcast(v), c);
    c := [DoBroadcast(v)] + c;
    Prepend(s2, DoEnter(1, 0), c);
    c := [DoEnter(1, 0)] + c;
    Prepend(s1, DoEnter(0, 0), c);
    c := [DoEnter(0, 0)] + c;
    Prepend(s0, DoListener(0), c);
    c := [DoListener(0)] + c;
  }
}

/** The same channel as the objects the program uses; one method per critical section. */
module Broadcaster {
  import opened Common
  import opened BroadcastProtocol

  class Broadcaster<T> {
    var generation: uint64
    var value: T
    var closed: bool
    // The condition variable: goroutines asleep in it, and those it has woken.
    var sleeping: set<Goroutine>
    var woken: set<Goroutine>

    function Fields(): Shared<T>
      reads this
    {
      Shared(generation, value, closed)
    }

    constructor (zero: T)
      ensures Fields() == Shared(0, zero, false) && sleeping == {} && woken == {}
    {
      generation := 0;
      value := zero;
      closed := false;
      sleeping, woken := {}, {};
    }

    method Broadcast(v: T)
      modifies this
      ensures Fields() == Publish(old(Fields()), v)
      ensures sleeping == {} && woken == old(woken + sleeping)
    {
      generation := (generation + 1) % TWO_64;
      value := v;
      WakeAllSleepers();
    }

    method Close()
      modifies this
      ensures Fields() == Shut(old(Fields()))
      ensures sleeping == {} && woken == old(woken + sleeping)
    {
      closed := true;
      WakeAllSleepers();
    }

    method WakeAllSleepers()
      modifies this`sleeping, this`woken
      ensures sleeping == {} && woken == old(woken + sleeping)
    {
      woken := woken + sleeping;
      sleeping := {};
    }

    method NewListener() returns (l: Listener<T>)
      ensures fresh(l) && l.broadcaster == this && l.lastGeneration == 0
    {
      l := new Listener(this);
    }
  }

  class Listener<T> {
    const broadcaster: Broadcaster<T>
    var lastGeneration: uint64

    constructor (b: Broadcaster<T>)
      ensures broadcaster == b && lastGeneration == 0
    {
      broadcaster := b;
      lastGeneration := 0;
    }

    /** The first critical section of Wait by goroutine `g`. */
    method WaitEnter(g: Goroutine) returns (o: Outcome<T>)
      modifies this, broadcaster`sleeping
      ensures o == Enter(old(broadcaster.Fields()), old(lastGeneration))
      ensures lastGeneration == if o.Delivers? then o.generation else old(lastGeneration)
      ensures broadcaster.sleeping == if o.Blocks? then old(broadcaster.sleeping) + {g} else old(broadcaster.sleeping)
    {
      if broadcaster.closed {
        return ReportsClosed;
      }
      if broadcaster.generation <= lastGeneration {
        broadcaster.sleeping := broadcaster.sleeping + {g};
        return Blocks;
      }
      o := Tail();
    }

    /** Wait by goroutine `g` from the return of its condition wait. */
    method WaitResume(g: Goroutine) returns (o: Outcome<T>)
      requires g in broadcaster.woken
      modifies this, broadcaster`woken
      ensures o == Resume(broadcaster.Fields(), old(lastGeneration))
      ensures lastGeneration == if o.Delivers? then o.generation else old(lastGeneration)
      ensures broadcaster.woken == old(broadcaster.woken) - {g}
    {
      broadcaster.woken := broadcaster.woken - {g};
      o := Tail();
    }

    method Tail() returns (o: Outcome<T>)
      modifies this
      ensures o == Resume(broadcaster.Fields(), old(lastGeneration))
      ensures lastGeneration == if o.Delivers? then o.generation else old(lastGeneration)
    {
      if broadcaster.generation > lastGeneration {
        lastGeneration := broadcaster.generation;
        o := Delivers(lastGeneration, broadcaster.value);
      } else if broadcaster.closed {
        o := ReportsClosed;
      } else {
        o := Panics;
      }
    }
  }
}
