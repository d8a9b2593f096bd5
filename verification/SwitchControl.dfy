/** Chain switching of bot/core/switch_controller.py: any number of `reconcile` tasks around one
    lock, interleaved at their awaits, with callbacks that may succeed, raise or be cancelled. */
module SwitchControl {
  import opened BotStates

  /** A stripped chain key; `Empty` stands for the empty string. */
  datatype Chain = Empty | Unknown | Named(id: nat)

  datatype Outcome = Done | Failed(error: string) | Cancelled

  datatype Kind = Apply | Validate

  /** One call of `apply_fn` or `validate_fn`; without an outcome it is in flight. */
  datatype Callback = Callback(task: nat, kind: Kind, target: Chain, outcome: Option<Outcome>)
  {
    predicate Won() { kind == Validate && outcome == Some(Done) }
  }

  /** `return False`, `return True`, or the way the task was left by an exception. */
  datatype Result = NotNeeded | Switched | Raised(error: string) | TaskCancelled

  datatype Phase = Waiting | Applying | Validating | Finished(result: Result)

  datatype Task = Task(target: Chain, phase: Phase)

  /** The controller's fields, its lock, its tasks, and every callback ever started. */
  datatype Ctl = Ctl(
    desired: Chain, effective: Chain, switching: bool, error: Option<string>, holder: Option<nat>,
    tasks: map<nat, Task>, calls: seq<Callback>)

  /** What runs between two awaits: a task enters, leaves the queue for the lock, has its callback
      end, or is cancelled while it waits for the lock. */
  datatype Event =
    | Enter(task: nat, desired: Chain, effective: Chain)
    | Acquire(task: nat)
    | EndCallback(task: nat, outcome: Outcome)
    | CancelWaiting(task: nat)

  function Known(c: Chain): Chain { if c == Empty then Unknown else c }

  predicate Enabled(s: Ctl, e: Event)
  {
    match e
    case Enter(t, _, _) => t !in s.tasks
    case Acquire(t) => t in s.tasks && s.tasks[t].phase == Waiting && s.holder == None
    case EndCallback(t, _) => s.holder == Some(t) && t in s.tasks && s.calls != []
      && (s.tasks[t].phase == Applying || s.tasks[t].phase == Validating)
    case CancelWaiting(t) => t in s.tasks && s.tasks[t].phase == Waiting
  }

  function WithPhase(s: Ctl, t: nat, p: Phase): Ctl
    requires t in s.tasks
  {
    s.(tasks := s.tasks[t := s.tasks[t].(phase := p)])
  }

  /** The callback in flight ends. */
  function Ended(calls: seq<Callback>, o: Outcome): (r: seq<Callback>)
    requires calls != []
  {
    calls[|calls| - 1 := calls[|calls| - 1].(outcome := Some(o))]
  }

  function Next(s: Ctl, e: Event): (s': Ctl)
    requires Enabled(s, e)
  {
    match e
    case Enter(t, desired, effective) =>
      var early := desired == Empty || desired == Unknown || desired == effective;
      s.(desired := Known(desired), effective := Known(effective),
         tasks := s.tasks[t := Task(desired, if early then Finished(NotNeeded) else Waiting)])
    case Acquire(t) =>
      var target := s.tasks[t].target;
      if target == s.effective then WithPhase(s, t, Finished(NotNeeded))
      else WithPhase(s, t, Applying).(switching := true, error := None, holder := Some(t),
                                      calls := s.calls + [Callback(t, Apply, target, None)])
    case EndCallback(t, o) =>
      var target := s.tasks[t].target;
      var ended := s.(calls := Ended(s.calls, o));
      var released := ended.(switching := false, holder := None);
      (match o
      case Done =>
        if s.tasks[t].phase == Applying then
          WithPhase(ended, t, Validating).(calls := ended.calls + [Callback(t, Validate, target, None)])
        else WithPhase(released, t, Finished(Switched)).(effective := target)
      case Failed(error) => WithPhase(released, t, Finished(Raised(error))).(error := Some(error))
      case Cancelled => WithPhase(released, t, Finished(TaskCancelled)))
    case CancelWaiting(t) => WithPhase(s, t, Finished(TaskCancelled))
  }

  // What every run keeps

  ghost predicate EndedAt(calls: seq<Callback>, i: nat)
    requires i < |calls|
  {
    calls[i].outcome.Some?
  }

  /** The first `n` callbacks have ended. */
  ghost predicate AllEnded(calls: seq<Callback>, n: int)
    requires n <= |calls|
  {
    forall i :: 0 <= i < n ==> EndedAt(calls, i)
  }

  /** A task other than the lock's holder is waiting or finished. */
  ghost predicate IdleAt(s: Ctl, t: nat)
    requires t in s.tasks
  {
    s.holder != Some(t) ==> s.tasks[t].phase == Waiting || s.tasks[t].phase.Finished?
  }

  /** The flag says exactly whether the lock is held; the holder's callback is the only one in flight
      and the last one started; a holder that validates has just applied the same target. */
  ghost predicate Inv(s: Ctl)
  {
    && s.switching == s.holder.Some?
    && (forall t :: t in s.tasks ==> IdleAt(s, t))
    && (s.holder == None ==> AllEnded(s.calls, |s.calls|))
    && (s.holder.Some? ==>
          var t, n := s.holder.value, |s.calls| - 1;
          && t in s.tasks && 0 <= n && AllEnded(s.calls, n)
          && (s.tasks[t].phase == Applying || s.tasks[t].phase == Validating)
          && s.calls[n] ==
             Callback(t, if s.tasks[t].phase == Applying then Apply else Validate, s.tasks[t].target, None)
          && (s.tasks[t].phase == Validating ==>
              0 < n && s.calls[n - 1] == Callback(t, Apply, s.tasks[t].target, Some(Done))))
  }

  ghost function Start(effective: Chain): Ctl
  {
    Ctl(Unknown, effective, false, None, None, map[], [])
  }

  lemma InvStep(s: Ctl, e: Event)
    requires Inv(s) && Enabled(s, e)
    ensures Inv(Next(s, e))
  {
    var s' := Next(s, e);
    forall t | t in s'.tasks ensures IdleAt(s', t) {
      assert t in s.tasks ==> IdleAt(s, t);
    }
    forall i | 0 <= i < |s.calls| ensures i < |s'.calls| && (i < |s.calls| - 1 ==> s'.calls[i] == s.calls[i]) {}
    forall i | 0 <= i < |s'.calls| && (s'.holder == None || i < |s'.calls| - 1) ensures EndedAt(s'.calls, i) {
      if i < |s.calls| && (s.holder == None || i < |s.calls| - 1) { assert EndedAt(s.calls, i); }
    }
  }

  /** A callback in flight is the last one started, by the task that holds the lock; so there is at
      most one, and the flag is false whenever the lock is free. */
  lemma OneInFlight(s: Ctl, i: nat)
    requires Inv(s) && i < |s.calls| && s.calls[i].outcome == None
    ensures i == |s.calls| - 1 && s.switching && s.holder == Some(s.calls[i].task)
  {
    assert i < |s.calls| - 1 || s.holder == None ==> EndedAt(s.calls, i);
  }

  /** A task returns True only in the step that ends its validation, and then the last two callbacks
      applied and validated its target and both succeeded. */
  lemma TrueMeansSwitched(s: Ctl, e: Event, t: nat)
    requires Inv(s) && Enabled(s, e)
    requires t in Next(s, e).tasks && Next(s, e).tasks[t].phase == Finished(Switched)
    requires t in s.tasks ==> s.tasks[t].phase != Finished(Switched)
    ensures var s' := Next(s, e);
            var n, target := |s'.calls|, s'.tasks[t].target;
            && 2 <= n && s'.effective == target
            && s'.calls[n - 2] == Callback(t, Apply, target, Some(Done))
            && s'.calls[n - 1] == Callback(t, Validate, target, Some(Done))
  {
  }

  /** The effective chain is what the latest entry said, or the target of a validation that has just
      succeeded; nothing else changes it, in particular no callback that fails or is cancelled. */
  lemma EffectiveStep(s: Ctl, e: Event)
    requires Inv(s) && Enabled(s, e)
    ensures var s' := Next(s, e);
            && (e.Enter? ==> s'.effective == if e.effective == Empty then Unknown else e.effective)
            && (!e.Enter? ==>
                  var won := e.EndCallback? && e.outcome == Done && s.calls[|s.calls| - 1].kind == Validate;
                  s'.effective == if won then s.calls[|s.calls| - 1].target else s.effective)
  {
  }

  /** The error is set by a failure and by nothing else, and only the next apply clears it. */
  lemma ErrorStep(s: Ctl, e: Event)
    requires Inv(s) && Enabled(s, e)
    ensures var s' := Next(s, e);
            s'.error == if e.EndCallback? && e.outcome.Failed? then Some(e.outcome.error)
                        else if |s.calls| < |s'.calls| && s'.calls[|s.calls|].kind == Apply then None
                        else s.error
  {
  }

  /** After a callback that failed or was cancelled, a waiting task that wants another chain than the
      effective one can take the lock, and does start another apply. */
  lemma LossIsRetried(s: Ctl, t: nat, o: Outcome, next: nat)
    requires Inv(s) && Enabled(s, EndCallback(t, o)) && o != Done
    requires next in s.tasks && s.tasks[next].phase == Waiting && s.tasks[next].target != s.effective
    ensures var s' := Next(s, EndCallback(t, o));
            && s'.effective == s.effective && !s'.switching && s'.holder == None && Enabled(s', Acquire(next))
            && Next(s', Acquire(next)).calls == s'.calls + [Callback(next, Apply, s.tasks[next].target, None)]
  {
  }

  // Conservation: every apply ends in a failure or in a success

  function Applies(calls: seq<Callback>): (n: nat)
  {
    if calls == [] then 0 else Applies(calls[..|calls| - 1]) + if calls[|calls| - 1].kind == Apply then 1 else 0
  }

  function Lost(o: Option<Outcome>): bool { o.Some? && o.value != Done }

  function Failures(calls: seq<Callback>): (n: nat)
  {
    if calls == [] then 0 else Failures(calls[..|calls| - 1]) + if Lost(calls[|calls| - 1].outcome) then 1 else 0
  }

  function Wins(calls: seq<Callback>): (n: nat)
  {
    if calls == [] then 0 else Wins(calls[..|calls| - 1]) + if calls[|calls| - 1].Won() then 1 else 0
  }

  ghost predicate Balanced(s: Ctl)
  {
    Applies(s.calls) == Failures(s.calls) + Wins(s.calls) + if s.holder.Some? then 1 else 0
  }

  lemma CountSnoc(calls: seq<Callback>, c: Callback)
    ensures Applies(calls + [c]) == Applies(calls) + if c.kind == Apply then 1 else 0
    ensures Failures(calls + [c]) == Failures(calls) + if Lost(c.outcome) then 1 else 0
    ensures Wins(calls + [c]) == Wins(calls) + if c.Won() then 1 else 0
  {
    assert (calls + [c])[..|calls|] == calls;
  }

  lemma CountEnded(calls: seq<Callback>, o: Outcome)
    requires calls != [] && calls[|calls| - 1].outcome == None
    ensures Applies(Ended(calls, o)) == Applies(calls)
    ensures Failures(Ended(calls, o)) == Failures(calls) + if o != Done then 1 else 0
    ensures Wins(Ended(calls, o)) == Wins(calls) + if o == Done && calls[|calls| - 1].kind == Validate then 1 else 0
  {
    var n := |calls| - 1;
    assert Ended(calls, o)[..n] == calls[..n];
  }

  lemma BalancedStep(s: Ctl, e: Event)
    requires Inv(s) && Enabled(s, e) && Balanced(s)
    ensures Balanced(Next(s, e))
  {
    match e
    case Enter(_, _, _) =>
    case CancelWaiting(_) =>
    case Acquire(t) => CountSnoc(s.calls, Callback(t, Apply, s.tasks[t].target, None));
    case EndCallback(t, o) =>
      CountEnded(s.calls, o);
      CountSnoc(Ended(s.calls, o), Callback(t, Validate, s.tasks[t].target, None));
  }

  // Whole runs

  ghost predicate Possible(s: Ctl, es: seq<Event>)
    decreases |es|
  {
    es == [] || (Enabled(s, es[0]) && Possible(Next(s, es[0]), es[1..]))
  }

  ghost function Run(s: Ctl, es: seq<Event>): Ctl
    requires Possible(s, es)
    decreases |es|
  {
    if es == [] then s else Run(Next(s, es[0]), es[1..])
  }

  /** Every interleaving keeps the invariant and the balance. */
  lemma {:induction false} EveryRun(s: Ctl, es: seq<Event>)
    requires Inv(s) && Balanced(s) && Possible(s, es)
    ensures Inv(Run(s, es)) && Balanced(Run(s, es))
    decreases |es|
  {
    if es != [] {
      InvStep(s, es[0]);
      BalancedStep(s, es[0]);
      EveryRun(Next(s, es[0]), es[1..]);
    }
  }

  lemma WinsStep(s: Ctl, e: Event)
    requires Inv(s) && Enabled(s, e)
    ensures Wins(Next(s, e).calls) ==
            Wins(s.calls) +
            if e.EndCallback? && e.outcome == Done && s.calls[|s.calls| - 1].kind == Validate then 1 else 0
  {
    match e
    case Enter(_, _, _) =>
    case CancelWaiting(_) =>
    case Acquire(t) => CountSnoc(s.calls, Callback(t, Apply, s.tasks[t].target, None));
    case EndCallback(t, o) =>
      CountEnded(s.calls, o);
      CountSnoc(Ended(s.calls, o), Callback(t, Validate, s.tasks[t].target, None));
  }

  lemma {:induction false} WinsGrow(s: Ctl, es: seq<Event>)
    requires Inv(s) && Possible(s, es)
    ensures Wins(s.calls) <= Wins(Run(s, es).calls)
    decreases |es|
  {
    if es != [] {
      InvStep(s, es[0]);
      WinsStep(s, es[0]);
      WinsGrow(Next(s, es[0]), es[1..]);
    }
  }

  /** Over a run in which no switch succeeds, the effective chain is the one of the latest entry,
      however many callbacks fail or are cancelled. */
  lemma {:induction false} EffectiveWithoutWin(s: Ctl, es: seq<Event>, first: Chain)
    requires Inv(s) && Possible(s, es) && s.effective == Known(first) && Wins(Run(s, es).calls) == Wins(s.calls)
    ensures Inv(Run(s, es))
    ensures var c := Latest(es, first); Run(s, es).effective == if c == Empty then Unknown else c
    decreases |es|
  {
    if es != [] {
      var s' := Next(s, es[0]);
      InvStep(s, es[0]);
      WinsStep(s, es[0]);
      WinsGrow(s', es[1..]);
      EffectiveStep(s, es[0]);
      LatestFirst(es, first, |es|);
      assert es[..|es|] == es && es[1..][..|es| - 1] == es[1..];
      EffectiveWithoutWin(s', es[1..], if es[0].Enter? then es[0].effective else first);
    }
  }

  /** Task `next` waits for a free lock with a target that is not the chain `c` that an entry has read. */
  predicate WaitsForOther(s: Ctl, c: Chain, next: nat)
  {
    s.holder == None && next in s.tasks && s.tasks[next].phase == Waiting
    && s.tasks[next].target != (if c == Empty then Unknown else c)
  }

  /** With the lock, task `next` starts the apply of its own target at once. */
  predicate StartsApply(s: Ctl, next: nat)
    requires Enabled(s, Acquire(next))
  {
    Next(s, Acquire(next)).calls == s.calls + [Callback(next, Apply, s.tasks[next].target, None)]
  }

  /** So after any run without a success, a task that waits for another chain than the latest entry
      named starts an apply once the lock is free. */
  lemma LossesAreRetried(s: Ctl, es: seq<Event>, first: Chain, next: nat)
    requires Inv(s) && Possible(s, es) && s.effective == Known(first) && Wins(Run(s, es).calls) == Wins(s.calls)
    requires WaitsForOther(Run(s, es), Latest(es, first), next)
    ensures Enabled(Run(s, es), Acquire(next))
    ensures StartsApply(Run(s, es), next)
  {
    EffectiveWithoutWin(s, es, first);
  }

  // Tasks with one target

  /** Some switch succeeded among the callbacks from the `base`-th on, and nothing followed. */
  predicate WonSince(s: Ctl, base: nat)
  {
    base < |s.calls| && s.calls[|s.calls| - 1].Won()
  }

  /** A task that enters asks for `d`, and once `d` has been switched to, it knows so. */
  predicate UpToDate(s: Ctl, e: Event, d: Chain, base: nat)
  {
    e.Enter? ==> e.desired == d && (WonSince(s, base) ==> e.effective == d)
  }

  ghost predicate AllUpToDate(s: Ctl, es: seq<Event>, d: Chain, base: nat)
    requires Possible(s, es)
    decreases |es|
  {
    es == [] || (UpToDate(s, es[0], d, base) && AllUpToDate(Next(s, es[0]), es[1..], d, base))
  }

  ghost predicate WantsAt(s: Ctl, t: nat, d: Chain)
    requires t in s.tasks
  {
    s.tasks[t].phase.Finished? || s.tasks[t].target == d
  }

  ghost predicate AllWant(s: Ctl, d: Chain)
  {
    forall t :: t in s.tasks ==> WantsAt(s, t, d)
  }

  /** Since `base` callbacks, with `wins` successes by then: one more success at most, and then the
      controller is settled on `d`. */
  ghost predicate OneWin(s: Ctl, d: Chain, base: nat, wins: nat)
  {
    && AllWant(s, d) && base <= |s.calls| && (s.holder.Some? ==> base < |s.calls|)
    && Wins(s.calls) == wins + (if WonSince(s, base) then 1 else 0)
    && (WonSince(s, base) ==> s.holder == None && s.effective == d)
  }

  lemma AllWantStep(s: Ctl, e: Event, d: Chain)
    requires Enabled(s, e) && AllWant(s, d) && (e.Enter? ==> e.desired == d)
    ensures AllWant(Next(s, e), d)
  {
    var s' := Next(s, e);
    forall t | t in s'.tasks ensures WantsAt(s', t, d) {
      assert t in s.tasks ==> WantsAt(s, t, d);
    }
  }

  lemma OneWinStep(s: Ctl, e: Event, d: Chain, base: nat, wins: nat)
    requires Inv(s) && Enabled(s, e) && OneWin(s, d, base, wins) && UpToDate(s, e, d, base) && d.Named?
    ensures OneWin(Next(s, e), d, base, wins)
    ensures WonSince(s, base) ==> Next(s, e).calls == s.calls
  {
    AllWantStep(s, e, d);
    match e
    case Enter(_, _, _) =>
    case CancelWaiting(_) =>
    case Acquire(t) => OneWinAcquire(s, t, d, base, wins);
    case EndCallback(t, o) => OneWinEnd(s, t, o, d, base, wins);
  }

  lemma OneWinAcquire(s: Ctl, t: nat, d: Chain, base: nat, wins: nat)
    requires Inv(s) && Enabled(s, Acquire(t)) && OneWin(s, d, base, wins) && AllWant(Next(s, Acquire(t)), d)
    ensures OneWin(Next(s, Acquire(t)), d, base, wins)
    ensures WonSince(s, base) ==> Next(s, Acquire(t)).calls == s.calls
  {
    assert WantsAt(s, t, d);
    CountSnoc(s.calls, Callback(t, Apply, s.tasks[t].target, None));
  }

  lemma OneWinEnd(s: Ctl, t: nat, o: Outcome, d: Chain, base: nat, wins: nat)
    requires Inv(s) && Enabled(s, EndCallback(t, o)) && OneWin(s, d, base, wins)
    requires AllWant(Next(s, EndCallback(t, o)), d)
    ensures OneWin(Next(s, EndCallback(t, o)), d, base, wins) && !WonSince(s, base)
  {
    assert WantsAt(s, t, d) && s.calls[|s.calls| - 1].outcome == None;
    CountEnded(s.calls, o);
    CountSnoc(Ended(s.calls, o), Callback(t, Validate, s.tasks[t].target, None));
  }

  lemma {:induction false} OneWinRun(s: Ctl, es: seq<Event>, d: Chain, base: nat, wins: nat)
    requires Inv(s) && Possible(s, es) && OneWin(s, d, base, wins) && AllUpToDate(s, es, d, base) && d.Named?
    ensures OneWin(Run(s, es), d, base, wins)
    ensures WonSince(s, base) ==> Run(s, es).calls == s.calls
    decreases |es|
  {
    if es != [] {
      InvStep(s, es[0]);
      OneWinStep(s, es[0], d, base, wins);
      OneWinRun(Next(s, es[0]), es[1..], d, base, wins);
    }
  }

  /** Tasks that all want `d`, and of which those entering after the first success know of it,
      start one apply for every failure and one for the success. */
  lemma OneApplyAfterFailures(s: Ctl, es: seq<Event>, d: Chain)
    requires Inv(s) && Balanced(s) && s.holder == None && AllWant(s, d) && d.Named?
    requires Possible(s, es) && AllUpToDate(s, es, d, |s.calls|)
    ensures var s' := Run(s, es);
            Applies(s'.calls) - Applies(s.calls)
            == Failures(s'.calls) - Failures(s.calls) + (if s'.holder.Some? || WonSince(s', |s.calls|) then 1 else 0)
  {
    OneWinRun(s, es, d, |s.calls|, Wins(s.calls));
    EveryRun(s, es);
  }

  /** The effective chain that the latest entry among these events brought along, or `first`. */
  function Latest(es: seq<Event>, first: Chain): (c: Chain)
  {
    if es == [] then first
    else if es[|es| - 1].Enter? then es[|es| - 1].effective
    else Latest(es[..|es| - 1], first)
  }

  /** The k-th event takes a task off the queue for the lock while the latest entry, or `first` if there
      was none, says that the effective chain is not `d`. */
  ghost predicate StaleFrom(es: seq<Event>, d: Chain, first: Chain, k: nat)
  {
    k < |es| && es[k].Acquire? && Latest(es[..k], first) != d
  }

  ghost predicate AllAskFor(es: seq<Event>, d: Chain)
  {
    forall e :: e in es ==> (e.Enter? ==> e.desired == d)
  }

  /** A settled controller: the lock is free, `effective` is what the latest entry said, and every
      waiting task wants `d`. */
  ghost predicate Settled(s: Ctl, d: Chain, effective: Chain)
  {
    Inv(s) && s.holder == None && s.effective == Known(effective) && AllWant(s, d) && d.Named?
  }

  lemma AppliesStep(s: Ctl, e: Event)
    requires Inv(s) && Enabled(s, e)
    ensures Applies(s.calls) <= Applies(Next(s, e).calls)
    ensures e.Acquire? && s.tasks[e.task].target != s.effective ==> Applies(s.calls) < Applies(Next(s, e).calls)
  {
    match e
    case Enter(_, _, _) =>
    case CancelWaiting(_) =>
    case Acquire(t) => CountSnoc(s.calls, Callback(t, Apply, s.tasks[t].target, None));
    case EndCallback(t, o) =>
      CountEnded(s.calls, o);
      CountSnoc(Ended(s.calls, o), Callback(t, Validate, s.tasks[t].target, None));
  }

  lemma {:induction false} AppliesGrow(s: Ctl, es: seq<Event>)
    requires Inv(s) && Possible(s, es)
    ensures Applies(s.calls) <= Applies(Run(s, es).calls)
    decreases |es|
  {
    if es != [] {
      InvStep(s, es[0]);
      AppliesStep(s, es[0]);
      AppliesGrow(Next(s, es[0]), es[1..]);
    }
  }

  lemma {:induction false} LatestFirst(es: seq<Event>, first: Chain, n: nat)
    requires 1 <= n <= |es|
    ensures Latest(es[..n], first) == Latest(es[1..][..n - 1], if es[0].Enter? then es[0].effective else first)
    decreases n
  {
    assert es[..n][..n - 1] == es[..n - 1];
    if n == 1 {
      assert es[..1] == [es[0]] && [es[0]][..0] == [];
    } else {
      assert es[1..][..n - 1][..n - 2] == es[1..][..n - 2];
      LatestFirst(es, first, n - 1);
    }
  }

  lemma StaleShift(es: seq<Event>, d: Chain, first: Chain, k: nat)
    requires k + 1 < |es|
    ensures StaleFrom(es, d, first, k + 1) <==>
            StaleFrom(es[1..], d, if es[0].Enter? then es[0].effective else first, k)
  {
    LatestFirst(es, first, k + 1);
  }

  /** From a settled controller on, with all tasks asking for `d`, an apply is started if and only if
      some task takes the lock while the latest entry says the effective chain is another one. */
  lemma {:induction false} ApplyStartsIff(s: Ctl, es: seq<Event>, d: Chain, first: Chain)
    requires Settled(s, d, first) && Possible(s, es) && AllAskFor(es, d)
    ensures Applies(s.calls) < Applies(Run(s, es).calls) <==> exists k: nat :: StaleFrom(es, d, first, k)
    decreases |es|
  {
    if es != [] {
      var e, rest := es[0], es[1..];
      var s', next := Next(s, e), if e.Enter? then e.effective else first;
      InvStep(s, e);
      assert e in es && forall x :: x in rest ==> x in es;
      assert es[..0] == [];
      AllWantStep(s, e, d);
      if e.Acquire? && Known(first) != d {
        assert WantsAt(s, e.task, d) && StaleFrom(es, d, first, 0);
        AppliesStep(s, e);
        AppliesGrow(s', rest);
      } else {
        assert e.Acquire? ==> WantsAt(s, e.task, d);
        assert Settled(s', d, next) && s'.calls == s.calls;
        ApplyStartsIff(s', rest, d, next);
        forall k: nat | StaleFrom(rest, d, next, k) ensures StaleFrom(es, d, first, k + 1) {
          StaleShift(es, d, first, k);
        }
        forall k: nat | StaleFrom(es, d, first, k) ensures 0 < k && StaleFrom(rest, d, next, k - 1) {
          if 0 < k { StaleShift(es, d, first, k - 1); }
        }
      }
    }
  }

  /** After a switch to `d` has succeeded, another apply is started if and only if some waiting task takes
      the lock while the latest entry since has brought along an effective chain other than `d`. */
  lemma SecondApplyIff(s: Ctl, es: seq<Event>, d: Chain)
    requires Inv(s) && s.holder == None && s.effective == d && AllWant(s, d) && d.Named?
    requires Possible(s, es) && AllAskFor(es, d)
    ensures Applies(s.calls) < Applies(Run(s, es).calls) <==> exists k: nat :: StaleFrom(es, d, d, k)
  {
    ApplyStartsIff(s, es, d, d);
  }

  /** One task switches from `was` to `d`. */
  lemma OneSwitch(d: Chain, was: Chain) returns (es: seq<Event>)
    requires d.Named? && d != was
    ensures Possible(Start(was), es)
    ensures var s := Run(Start(was), es);
            s.holder == None && s.effective == d && 2 !in s.tasks && |s.calls| == 2 && s.calls[1].Won()
              && s.calls[1].target == d
  {
    var s0 := Start(was);
    var e1, e2, e3 := Enter(1, d, was), Acquire(1), EndCallback(1, Done);
    es := [e1, e2, e3, e3];
    var s1 := Next(s0, e1);
    var s2 := Next(s1, e2);
    var s3 := Next(s2, e3);
    RunFirst(s3, e3, []);
    RunFirst(s2, e3, [e3]);
    RunFirst(s1, e2, [e3, e3]);
    RunFirst(s0, e1, [e2, e3, e3]);
  }

  /** ... so one entry with a stale effective chain starts a second apply after a success. */
  lemma StaleEntryAppliesTwice(d: Chain, was: Chain)
    requires d.Named? && was.Named? && d != was
    ensures exists es: seq<Event> :: Possible(Start(was), es) && SecondApply(Run(Start(was), es), d)
  {
    var es := OneSwitch(d, was);
    var s := Run(Start(was), es);
    var e, a := Enter(2, d, was), Acquire(2);
    RunFirst(Next(s, e), a, []);
    RunFirst(s, e, [a]);
    RunConcat(Start(was), es, [e, a]);
    var s' := Run(Start(was), es + [e, a]);
    assert s'.calls[1].Won() && s'.calls[2] == Callback(2, Apply, d, None);
  }

  lemma {:induction false} RunConcat(s: Ctl, a: seq<Event>, b: seq<Event>)
    requires Possible(s, a) && Possible(Run(s, a), b)
    ensures Possible(s, a + b) && Run(s, a + b) == Run(Run(s, a), b)
    decreases |a|
  {
    if a == [] {
      assert a + b == b;
    } else {
      assert (a + b)[1..] == a[1..] + b;
      RunConcat(Next(s, a[0]), a[1..], b);
    }
  }

  ghost predicate SecondApply(s: Ctl, d: Chain)
  {
    exists i, j :: 0 <= i < j < |s.calls| && s.calls[i].Won() && s.calls[j].kind == Apply
                   && s.calls[i].target == d && s.calls[j].target == d
  }

  lemma RunFirst(s: Ctl, e: Event, es: seq<Event>)
    requires Enabled(s, e) && Possible(Next(s, e), es)
    ensures Possible(s, [e] + es) && Run(s, [e] + es) == Run(Next(s, e), es)
  {
    assert ([e] + es)[1..] == es;
  }

  class SwitchController {
    var desiredChain: Chain
    var effectiveChain: Chain
    var switchingInProgress: bool
    var lastTransitionError: Option<string>
    var lock: Option<nat>

    // The tasks inside `reconcile`, and every callback ever started
    ghost var tasks: map<nat, Task>
    ghost var calls: seq<Callback>

    ghost function View(): Ctl
      reads this
    {
      Ctl(desiredChain, effectiveChain, switchingInProgress, lastTransitionError, lock, tasks, calls)
    }

    ghost predicate Valid()
      reads this
    {
      Inv(View()) && Balanced(View())
    }

    constructor ()
      ensures Valid() && View() == Start(Unknown)
    {
      desiredChain, effectiveChain, switchingInProgress := Unknown, Unknown, false;
      lastTransitionError, lock := None, None;
      tasks, calls := map[], [];
    }

    /** `reconcile` up to the lock. */
    method EnterReconcile(t: nat, desired: Chain, effective: Chain) returns (early: bool)
      requires Valid() && t !in tasks
      modifies this
      ensures Valid() && View() == Next(old(View()), Enter(t, desired, effective))
      ensures desiredChain == if desired == Empty then Unknown else desired
      ensures effectiveChain == if effective == Empty then Unknown else effective
      ensures unchanged(`switchingInProgress) && unchanged(`lastTransitionError) && unchanged(`lock)
      ensures unchanged(`calls)
      ensures early <==> desired == Empty || desired == Unknown || desired == effective
      ensures tasks == old(tasks)[t := Task(desired, if early then Finished(NotNeeded) else Waiting)]
    {
      ghost var s := View();
      InvStep(s, Enter(t, desired, effective));
      BalancedStep(s, Enter(t, desired, effective));
      desiredChain := Known(desired);
      effectiveChain := Known(effective);
      early := desired == Empty || desired == Unknown || desired == effective;
      tasks := tasks[t := Task(desired, if early then Finished(NotNeeded) else Waiting)];
    }

    /** `reconcile` from the lock to the start of `apply_fn`. */
    method EnterLock(t: nat, desired: Chain) returns (needed: bool)
      requires Valid() && Enabled(View(), Acquire(t)) && tasks[t].target == desired
      modifies this
      ensures Valid() && View() == Next(old(View()), Acquire(t))
      ensures unchanged(`desiredChain) && unchanged(`effectiveChain) && (needed <==> desired != effectiveChain)
      ensures if needed then
                && lock == Some(t) && switchingInProgress && lastTransitionError == None
                && calls == old(calls) + [Callback(t, Apply, desired, None)]
                && tasks == old(tasks)[t := Task(desired, Applying)]
              else
                && unchanged(`lock) && unchanged(`switchingInProgress) && unchanged(`lastTransitionError)
                && unchanged(`calls)
                && tasks == old(tasks)[t := Task(desired, Finished(NotNeeded))]
    {
      ghost var s := View();
      InvStep(s, Acquire(t));
      BalancedStep(s, Acquire(t));
      if desired == effectiveChain {
        tasks := tasks[t := Task(desired, Finished(NotNeeded))];
        return false;
      }
      lock := Some(t);
      switchingInProgress := true;
      lastTransitionError := None;
      tasks := tasks[t := Task(desired, Applying)];
      calls := calls + [Callback(t, Apply, desired, None)];
      return true;
    }

    /** `reconcile` after `apply_fn`, or after `validate_fn`, with its `except` and `finally`. */
    method AfterCallback(t: nat, desired: Chain, validating: bool, o: Outcome) returns (result: Option<Result>)
      requires Valid() && Enabled(View(), EndCallback(t, o)) && tasks[t].target == desired
      requires validating <==> tasks[t].phase == Validating
      modifies this
      ensures Valid() && View() == Next(old(View()), EndCallback(t, o))
      ensures unchanged(`desiredChain)
      ensures effectiveChain == if validating && o == Done then desired else old(effectiveChain)
      ensures lastTransitionError == if o.Failed? then Some(o.error) else old(lastTransitionError)
      ensures result == if o.Failed? then Some(Raised(o.error))
                        else if o.Cancelled? then Some(TaskCancelled)
                        else if validating then Some(Switched) else None
      ensures if result == None then unchanged(`lock) && unchanged(`switchingInProgress)
              else lock == None && !switchingInProgress
      ensures tasks == old(tasks)[t := Task(desired, if result == None then Validating else Finished(result.value))]
      ensures var n, last := |old(calls)| - 1, old(calls)[|old(calls)| - 1];
              calls == old(calls)[..n] + [last.(outcome := Some(o))] +
                if result == None then [Callback(t, Validate, desired, None)] else []
    {
      ghost var s := View();
      InvStep(s, EndCallback(t, o));
      BalancedStep(s, EndCallback(t, o));
      calls := Ended(calls, o);
      if o == Done && !validating {
        tasks := tasks[t := Task(desired, Validating)];
        calls := calls + [Callback(t, Validate, desired, None)];
        assert View() == Next(s, EndCallback(t, o));
        return None;
      }
      match o {
        case Done =>
          effectiveChain := desired;
          result := Some(Switched);
        case Failed(error) =>
          lastTransitionError := Some(error);
          result := Some(Raised(error));
        case Cancelled =>
          result := Some(TaskCancelled);
      }
      switchingInProgress := false;
      lock := None;
      tasks := tasks[t := Task(desired, Finished(result.value))];
      assert View() == Next(s, EndCallback(t, o));
    }
  }
}
