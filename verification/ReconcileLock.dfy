/** The holder of the reconcile lock (fleet/src/serve/lock.ts): a promise-chain
    mutex with a timeout per waiter in front of a retry loop on flock(2), which
    other processes take too. The interleavings are a state machine over one
    atomic step of one call at a time; the class at the end is one call's code. */
module ReconcileLock {

  datatype Outcome = Pending | Value | Threw | Busy

  /** Where a call of `withReconcileLock` stands. */
  datatype Phase =
    | Waiting    // its gate is in the chain, an earlier gate is not resolved
    | Granted    // the mutex is its own
    | Opened     // the lock file is open, flock not yet taken
    | Body       // flock taken, `fn` running
    | Closing    // in `finally`, the fd to be closed
    | Releasing  // in `finally`, the gate to be released
    | Done

  datatype Call = Call(deadline: int, phase: Phase, gate: bool, fd: bool, runs: nat, outcome: Outcome)

  datatype Holder = Nobody | Ours(call: nat) | Other(process: nat)

  /** `calls` in arrival order; `grants` is the history of mutex grants. */
  datatype State = State(now: int, calls: seq<Call>, flock: Holder, grants: seq<nat>)

  datatype Action =
    | Arrive(deadline: int)
    | Grant(i: nat)
    | TimeOut(i: nat)
    | Open(i: nat, ok: bool)
    | TryLock(i: nat)
    | Finish(i: nat, ok: bool)
    | Close(i: nat)
    | Release(i: nat)
    | Elapse(ms: nat)
    | OtherLocks(process: nat)
    | OtherUnlocks

  const START := State(0, [], Nobody, [])

  /** A gate's predecessors in the chain are all resolved. */
  predicate PriorResolved(s: State, i: nat) {
    forall j :: 0 <= j < i && j < |s.calls| ==> s.calls[j].gate
  }

  predicate At(s: State, i: nat, p: Phase) {
    i < |s.calls| && s.calls[i].phase == p
  }

  predicate Enabled(s: State, a: Action) {
    match a
    case Arrive(_) => true
    case Grant(i) => At(s, i, Waiting) && PriorResolved(s, i)
    case TimeOut(i) => At(s, i, Waiting) && s.now >= s.calls[i].deadline
    case Open(i, _) => At(s, i, Granted)
    case TryLock(i) => At(s, i, Opened)
    case Finish(i, _) => At(s, i, Body)
    case Close(i) => At(s, i, Closing)
    case Release(i) => At(s, i, Releasing)
    case Elapse(_) => true
    case OtherLocks(_) => s.flock.Nobody?
    case OtherUnlocks => s.flock.Other?
  }

  function With(s: State, i: nat, c: Call): State
    requires i < |s.calls|
  {
    s.(calls := s.calls[i := c])
  }

  function Next(s: State, a: Action): State
    requires Enabled(s, a)
  {
    match a
    case Arrive(deadline) =>
      // out of time on arrival: the gate is released at once
      s.(calls := s.calls + [if s.now >= deadline then Call(deadline, Done, true, false, 0, Busy)
                             else Call(deadline, Waiting, false, false, 0, Pending)])
    case Grant(i) => With(s, i, s.calls[i].(phase := Granted)).(grants := s.grants + [i])
    case TimeOut(i) => With(s, i, s.calls[i].(phase := Done, gate := true, outcome := Busy))
    case Open(i, ok) =>
      if ok then With(s, i, s.calls[i].(phase := Opened, fd := true))
      else With(s, i, s.calls[i].(phase := Releasing, outcome := Busy))
    case TryLock(i) =>
      if s.flock.Nobody? then With(s, i, s.calls[i].(phase := Body, runs := s.calls[i].runs + 1)).(flock := Ours(i))
      else if s.now >= s.calls[i].deadline then With(s, i, s.calls[i].(phase := Closing, outcome := Busy))
      else s
    case Finish(i, ok) => With(s, i, s.calls[i].(phase := Closing, outcome := if ok then Value else Threw))
    case Close(i) =>
      With(s, i, s.calls[i].(phase := Releasing, fd := false)).(flock := if s.flock == Ours(i) then Nobody else s.flock)
    case Release(i) => With(s, i, s.calls[i].(phase := Done, gate := true))
    case Elapse(ms) => s.(now := s.now + ms)
    case OtherLocks(p) => s.(flock := Other(p))
    case OtherUnlocks => s.(flock := Nobody)
  }

  ghost predicate Runs(s: State, acts: seq<Action>)
    decreases |acts|
  {
    acts == [] || (Enabled(s, acts[0]) && Runs(Next(s, acts[0]), acts[1..]))
  }

  function Final(s: State, acts: seq<Action>): State
    requires Runs(s, acts)
    decreases |acts|
  {
    if acts == [] then s else Final(Next(s, acts[0]), acts[1..])
  }

  // ----- the invariant -----

  /** Past the mutex and not out again. */
  predicate Inside(c: Call) {
    c.phase != Waiting && c.phase != Done
  }

  /** One call's bookkeeping. */
  ghost predicate CallOk(s: State, i: nat)
    requires i < |s.calls|
  {
    var c := s.calls[i];
    && c.runs <= 1
    && (c.gate <==> c.phase == Done)
    && (c.fd <==> c.phase == Opened || c.phase == Body || c.phase == Closing)
    && (c.phase == Body ==> s.flock == Ours(i) && c.runs == 1 && c.outcome == Pending)
    && (s.flock == Ours(i) ==> c.runs == 1 && (c.phase == Body || c.phase == Closing))
    && (c.phase == Closing && c.runs == 1 ==> s.flock == Ours(i))
    && (c.phase == Waiting || c.phase == Granted || c.phase == Opened ==> c.runs == 0 && c.outcome == Pending)
    && (c.phase == Closing || c.phase == Releasing || c.phase == Done ==>
          c.outcome != Pending && (c.runs == 1 <==> c.outcome == Value || c.outcome == Threw))
  }

  /** A call past the mutex has only finished calls before it, and only calls still
      waiting or already finished behind it. */
  ghost predicate Alone(s: State, i: nat)
    requires i < |s.calls|
  {
    Inside(s.calls[i]) ==>
      forall j :: 0 <= j < |s.calls| && j != i ==> s.calls[j].phase == Done || (j > i && s.calls[j].phase == Waiting)
  }

  /** Grants came in arrival order, and none of them overtook a waiting call. */
  ghost predicate InOrder(s: State) {
    && (forall m, n :: 0 <= m < n < |s.grants| ==> s.grants[m] < s.grants[n])
    && (forall m :: 0 <= m < |s.grants| ==> s.grants[m] < |s.calls|)
    && (forall m, i :: 0 <= m < |s.grants| && At(s, i, Waiting) ==> s.grants[m] < i)
  }

  ghost predicate Inv(s: State) {
    && (forall i :: 0 <= i < |s.calls| ==> CallOk(s, i) && Alone(s, i))
    && (s.flock.Ours? ==> s.flock.call < |s.calls|)
    && InOrder(s)
  }

  lemma CallsStayOk(s: State, a: Action)
    requires Inv(s) && Enabled(s, a)
    ensures var t := Next(s, a); forall i :: 0 <= i < |t.calls| ==> CallOk(t, i)
  {
    var t := Next(s, a);
    hide InOrder, Alone;
    forall i | 0 <= i < |t.calls| ensures CallOk(t, i) {
      if i < |s.calls| {
        assert CallOk(s, i);
        if s.flock.Ours? {
          assert CallOk(s, s.flock.call);
        }
      }
    }
  }

  lemma GatesAreDone(s: State)
    requires Inv(s)
    ensures forall j :: 0 <= j < |s.calls| ==> (s.calls[j].gate <==> s.calls[j].phase == Done)
  {
    forall j | 0 <= j < |s.calls| ensures s.calls[j].gate <==> s.calls[j].phase == Done {
      assert CallOk(s, j);
    }
  }

  lemma StaysAlone(s: State, a: Action)
    requires Inv(s) && Enabled(s, a)
    ensures var t := Next(s, a); forall i :: 0 <= i < |t.calls| ==> Alone(t, i)
  {
    var t := Next(s, a);
    hide InOrder;
    GatesAreDone(s);
    hide CallOk;
    forall i | 0 <= i < |t.calls| ensures Alone(t, i) {
      if i < |s.calls| {
        assert Alone(s, i);
        if Inside(t.calls[i]) {
          forall j | 0 <= j < |t.calls| && j != i
            ensures t.calls[j].phase == Done || (j > i && t.calls[j].phase == Waiting)
          {
            if j < |s.calls| {
              assert Alone(s, j);
            }
          }
        }
      }
    }
  }

  lemma StaysInOrder(s: State, a: Action)
    requires Inv(s) && Enabled(s, a)
    ensures InOrder(Next(s, a)) && (Next(s, a).flock.Ours? ==> Next(s, a).flock.call < |Next(s, a).calls|)
  {
    var t := Next(s, a);
    GatesAreDone(s);
    hide CallOk, Alone;
    forall m, i: nat | 0 <= m < |t.grants| && At(t, i, Waiting) ensures t.grants[m] < i {
      if i < |s.calls| {
        assert At(s, i, Waiting);
      }
    }
  }

  lemma {:induction false} RunKeepsInv(s: State, acts: seq<Action>)
    requires Inv(s) && Runs(s, acts)
    ensures Inv(Final(s, acts))
    decreases |acts|
  {
    if acts != [] {
      CallsStayOk(s, acts[0]);
      StaysAlone(s, acts[0]);
      StaysInOrder(s, acts[0]);
      assert Inv(Next(s, acts[0]));
      hide Inv, Next, Enabled;
      RunKeepsInv(Next(s, acts[0]), acts[1..]);
    }
  }

  lemma StartIsInv()
    ensures Inv(START)
  {
  }

  // ----- what every interleaving guarantees -----

  /** At most one body runs, and while it runs no other call and no other process
      holds the flock. */
  lemma MutualExclusion(acts: seq<Action>, i: nat, j: nat)
    requires Runs(START, acts)
    requires At(Final(START, acts), i, Body) && At(Final(START, acts), j, Body)
    ensures i == j && Final(START, acts).flock == Ours(i)
  {
    StartIsInv();
    RunKeepsInv(START, acts);
    var s := Final(START, acts);
    assert CallOk(s, i) && CallOk(s, j);
  }

  /** A waiter, however many before it timed out, is let past only when no call is
      inside; a live holder is never joined by a successor. */
  lemma NoSuccessorPastAHolder(acts: seq<Action>, holder: nat, waiter: nat)
    requires Runs(START, acts)
    requires var s := Final(START, acts); holder < |s.calls| && Inside(s.calls[holder])
    ensures !Enabled(Final(START, acts), Grant(waiter))
  {
    StartIsInv();
    RunKeepsInv(START, acts);
    var s := Final(START, acts);
    assert Alone(s, holder) && CallOk(s, holder);
    if At(s, waiter, Waiting) {
      assert waiter > holder;
      assert !PriorResolved(s, waiter) by { assert !s.calls[holder].gate; }
    }
  }

  /** A waiter's turn has come exactly when every earlier call is over, timed out
      or not: one that gave up blocks nobody behind it. */
  lemma TurnComesWhenEarlierAreDone(acts: seq<Action>, i: nat)
    requires Runs(START, acts) && At(Final(START, acts), i, Waiting)
    ensures Enabled(Final(START, acts), Grant(i))
            <==> forall j :: 0 <= j < i ==> Final(START, acts).calls[j].phase == Done
  {
    StartIsInv();
    RunKeepsInv(START, acts);
    GatesAreDone(Final(START, acts));
  }

  /** Every call runs its body at most once; a finished one has closed its fd, let
      go of the flock, released its gate, and reports a value or an error exactly
      when its body ran. */
  lemma FinishedCallsAreClean(acts: seq<Action>, i: nat)
    requires Runs(START, acts) && i < |Final(START, acts).calls|
    ensures var s := Final(START, acts);
            var c := s.calls[i];
            && c.runs <= 1
            && (c.phase == Done ==>
                  !c.fd && c.gate && s.flock != Ours(i) && c.outcome != Pending
                  && (c.runs == 1 <==> c.outcome == Value || c.outcome == Threw))
  {
    StartIsInv();
    RunKeepsInv(START, acts);
    assert CallOk(Final(START, acts), i);
  }

  // ----- nothing gets stuck -----

  /** The steps that belong to a call. */
  predicate OwnStep(a: Action) {
    a.Grant? || a.TimeOut? || a.Open? || a.TryLock? || a.Finish? || a.Close? || a.Release?
  }

  /** While a call is unfinished some call can take a step: a timed-out waiter
      blocks nobody, and neither does a finished one. */
  lemma NeverStuck(acts: seq<Action>, i: nat) returns (a: Action)
    requires Runs(START, acts)
    requires i < |Final(START, acts).calls| && Final(START, acts).calls[i].phase != Done
    ensures OwnStep(a) && Enabled(Final(START, acts), a)
  {
    StartIsInv();
    RunKeepsInv(START, acts);
    var s := Final(START, acts);
    var k := 0;
    while s.calls[k].phase == Done
      invariant k <= i && forall j :: 0 <= j < k ==> s.calls[j].phase == Done
      decreases i - k
    {
      k := k + 1;
    }
    GatesAreDone(s);
    match s.calls[k].phase {
      case Waiting => a := Grant(k);
      case Granted => a := Open(k, true);
      case Opened => a := TryLock(k);
      case Body => a := Finish(k, true);
      case Closing => a := Close(k);
      case Releasing => a := Release(k);
      case Done =>
    }
  }

  function Rank(p: Phase): nat {
    match p
    case Waiting => 6
    case Granted => 5
    case Opened => 4
    case Body => 3
    case Closing => 2
    case Releasing => 1
    case Done => 0
  }

  function Work(calls: seq<Call>): nat {
    if calls == [] then 0 else Rank(calls[0].phase) + Work(calls[1..])
  }

  lemma {:induction false} WorkOfUpdate(calls: seq<Call>, i: nat, c: Call)
    requires i < |calls|
    ensures Work(calls[i := c]) == Work(calls) - Rank(calls[i].phase) + Rank(c.phase)
  {
    if i == 0 {
      assert calls[i := c][1..] == calls[1..];
    } else {
      assert calls[i := c][1..] == calls[1..][i - 1 := c];
      WorkOfUpdate(calls[1..], i - 1, c);
    }
  }

  /** Every own step leaves less to do, except a failed attempt before the
      deadline, which changes nothing: past the deadlines all calls finish. */
  lemma OwnStepsFinish(s: State, a: Action)
    requires Enabled(s, a) && OwnStep(a)
    ensures Work(Next(s, a).calls) < Work(s.calls)
            || (a.TryLock? && Next(s, a) == s && !s.flock.Nobody? && s.now < s.calls[a.i].deadline)
  {
    var t := Next(s, a);
    if t != s {
      WorkOfUpdate(s.calls, a.i, t.calls[a.i]);
    }
  }

  // ----- why a call ends as it does -----

  /** The deadlines of the calls, in arrival order. */
  function Deadlines(acts: seq<Action>): seq<int> {
    if acts == [] then []
    else
      var a := acts[|acts| - 1];
      Deadlines(acts[..|acts| - 1]) + if a.Arrive? then [a.deadline] else []
  }

  function Elapsed(acts: seq<Action>): nat {
    if acts == [] then 0
    else
      var a := acts[|acts| - 1];
      Elapsed(acts[..|acts| - 1]) + if a.Elapse? then a.ms else 0
  }

  /** The calls that were granted the mutex, in the order of the grants. */
  function GrantOrder(acts: seq<Action>): seq<nat> {
    if acts == [] then []
    else
      var a := acts[|acts| - 1];
      GrantOrder(acts[..|acts| - 1]) + if a.Grant? then [a.i] else []
  }

  lemma {:induction false} GrantsAreRecorded(acts: seq<Action>)
    requires Runs(START, acts)
    ensures Final(START, acts).grants == GrantOrder(acts)
    decreases |acts|
  {
    if acts != [] {
      LastStep(START, acts);
      GrantsAreRecorded(acts[..|acts| - 1]);
      hide Enabled, Runs, Final;
    }
  }

  /** The mutex is granted in arrival order, whoever timed out in between. */
  lemma GrantsFollowArrival(acts: seq<Action>, m: nat, n: nat)
    requires Runs(START, acts) && m < n < |GrantOrder(acts)|
    ensures GrantOrder(acts)[m] < GrantOrder(acts)[n] < |Final(START, acts).calls|
  {
    StartIsInv();
    RunKeepsInv(START, acts);
    GrantsAreRecorded(acts);
  }

  /** The step gives the call of this place and deadline its outcome: the end of its body;
      a lock file that does not open; or a moment at or after the deadline, on arrival,
      while waiting, or at an attempt that finds the flock held. */
  predicate Causes(s: State, a: Action, i: nat, deadline: int, o: Outcome) {
    match o
    case Pending => false
    case Value => a == Finish(i, true)
    case Threw => a == Finish(i, false)
    case Busy =>
      || a == Open(i, false)
      || (s.now >= deadline
          && (a == TimeOut(i) || (a == TryLock(i) && !s.flock.Nobody?) || (a == Arrive(deadline) && i == |s.calls|)))
  }

  lemma StepCauses(s: State, a: Action, i: nat)
    requires Enabled(s, a) && i < |Next(s, a).calls|
    ensures var t := Next(s, a);
            && (i < |s.calls| ==> t.calls[i].deadline == s.calls[i].deadline)
            && (t.calls[i].outcome != (if i < |s.calls| then s.calls[i].outcome else Pending) ==>
                  Causes(s, a, i, t.calls[i].deadline, t.calls[i].outcome))
            && |t.calls| == |s.calls| + (if a.Arrive? then 1 else 0)
            && (a.Arrive? ==> t.calls[|s.calls|].deadline == a.deadline)
            && t.now == s.now + (if a.Elapse? then a.ms else 0)
  {
  }

  lemma {:induction false} LastStep(s: State, acts: seq<Action>)
    requires acts != [] && Runs(s, acts)
    ensures var pre, a := acts[..|acts| - 1], acts[|acts| - 1];
            Runs(s, pre) && Enabled(Final(s, pre), a) && Final(s, acts) == Next(Final(s, pre), a)
    decreases |acts|
  {
    hide Enabled, Next;
    if |acts| > 1 {
      var t := Next(s, acts[0]);
      LastStep(t, acts[1..]);
      assert acts[1..][..|acts| - 2] == acts[..|acts| - 1][1..];
    } else {
      assert acts[..0] == [] && acts[1..] == [];
    }
  }

  lemma {:induction false} ArrivalsAndTime(acts: seq<Action>)
    requires Runs(START, acts)
    ensures var s := Final(START, acts);
            && s.now == Elapsed(acts) && |s.calls| == |Deadlines(acts)|
            && forall i :: 0 <= i < |s.calls| ==> s.calls[i].deadline == Deadlines(acts)[i]
    decreases |acts|
  {
    if acts != [] {
      var pre := acts[..|acts| - 1];
      LastStep(START, acts);
      ArrivalsAndTime(pre);
      hide Next, Enabled, Runs, Final;
      forall i | 0 <= i < |Final(START, acts).calls|
        ensures Final(START, acts).calls[i].deadline == Deadlines(acts)[i]
      {
        StepCauses(Final(START, pre), acts[|acts| - 1], i);
      }
      StepTime(Final(START, pre), acts[|acts| - 1]);
    }
  }

  lemma StepTime(s: State, a: Action)
    requires Enabled(s, a)
    ensures var t := Next(s, a);
            t.now == s.now + (if a.Elapse? then a.ms else 0) && |t.calls| == |s.calls| + (if a.Arrive? then 1 else 0)
  {
  }

  /** Step k of the run gives call i this outcome. */
  ghost predicate CausedAt(acts: seq<Action>, k: nat, i: nat, o: Outcome)
    requires Runs(START, acts)
  {
    && k < |acts| && Runs(START, acts[..k]) && i < |Deadlines(acts)|
    && Causes(Final(START, acts[..k]), acts[k], i, Deadlines(acts)[i], o)
  }

  /** In every run an outcome has its cause: a value or an error is that of the body, and a
      call is busy only if the lock file did not open or its deadline had come. */
  lemma {:induction false} OutcomesHaveCauses(acts: seq<Action>, i: nat)
    requires Runs(START, acts) && i < |Final(START, acts).calls| && Final(START, acts).calls[i].outcome != Pending
    ensures exists k: nat :: CausedAt(acts, k, i, Final(START, acts).calls[i].outcome)
    decreases |acts|
  {
    if acts != [] {
      var n := |acts| - 1;
      var pre, o := acts[..n], Final(START, acts).calls[i].outcome;
      LastStep(START, acts);
      ArrivalsAndTime(acts);
      ArrivalsAndTime(pre);
      hide Next, Enabled, Causes, Runs, Final;
      StepCauses(Final(START, pre), acts[n], i);
      if i < |Final(START, pre).calls| && Final(START, pre).calls[i].outcome == o {
        OutcomesHaveCauses(pre, i);
        var k: nat :| CausedAt(pre, k, i, o);
        assert pre[..k] == acts[..k] && Deadlines(acts)[i] == Deadlines(pre)[i];
        assert CausedAt(acts, k, i, o);
      } else {
        assert CausedAt(acts, n, i, o);
      }
    } else {
      NothingEnded(acts, i);
    }
  }

  lemma NothingEnded(acts: seq<Action>, i: nat)
    requires acts == [] && Runs(START, acts)
    ensures |Final(START, acts).calls| == 0
  {
  }

  /** A call that arrives with its deadline past is over at once, busy, and one that arrives
      in time waits; after that a step of another call, of another process or of the clock
      leaves it as it is. */
  lemma OwnStepsAlone(s: State, a: Action, i: nat)
    requires Enabled(s, a) && i < |Next(s, a).calls|
    ensures var c := Next(s, a).calls[i];
            && (i >= |s.calls| ==>
                  i == |s.calls| && a == Arrive(c.deadline) && !c.fd && c.runs == 0
                  && if s.now >= c.deadline then c.phase == Done && c.outcome == Busy && c.gate
                     else c.phase == Waiting && c.outcome == Pending && !c.gate)
            && (i < |s.calls| && !(OwnStep(a) && a.i == i) ==> c == s.calls[i])
  {
  }

  /** Nobody needs to wait for the mutex past its deadline, whoever is inside: as soon as the
      clock shows it the call can leave, busy, and its gate is open to those behind it. */
  lemma DeadlineEndsTheWait(s: State, i: nat)
    requires At(s, i, Waiting)
    ensures var c := s.calls[i];
            var t := Next(s, Elapse(if c.deadline > s.now then c.deadline - s.now else 0));
            && Enabled(t, TimeOut(i))
            && Next(t, TimeOut(i)).calls == s.calls[i := c.(phase := Done, gate := true, outcome := Busy)]
  {
  }

  /** A lock file that does not open ends the call: busy, without a file, and with the gate to
      be released as its next step. */
  lemma FailedOpenEndsTheCall(s: State, i: nat)
    requires Enabled(s, Open(i, false))
    ensures var t := Next(s, Open(i, false));
            && t == s.(calls := s.calls[i := s.calls[i].(phase := Releasing, outcome := Busy)])
            && Enabled(t, Release(i)) && At(Next(t, Release(i)), i, Done) && Next(t, Release(i)).calls[i].gate
  {
  }

  /** The flock is taken only when it is free, and let go only by whoever holds it: a call
      that gives up never frees it for another call or process. */
  lemma FlockIsLetGoByItsHolder(s: State, a: Action)
    requires Enabled(s, a)
    ensures var held := Next(s, a).flock;
            match s.flock
            case Nobody => held.Nobody? || (held.Ours? && a == TryLock(held.call))
                           || (held.Other? && a == OtherLocks(held.process))
            case Ours(j) => held == Ours(j) || (held.Nobody? && a == Close(j))
            case Other(_) => held == s.flock || (held.Nobody? && a.OtherUnlocks?)
  {
  }

  /** A call with the lock file open stays so, whatever else happens, until an attempt of
      its own finds the flock free, which runs the body, or finds it held at or after the
      deadline. */
  lemma OnlyAttemptsEndTheWait(s: State, a: Action, i: nat)
    requires Enabled(s, a) && At(s, i, Opened)
    ensures At(Next(s, a), i, Opened) <==> a != TryLock(i) || (!s.flock.Nobody? && s.now < s.calls[i].deadline)
    ensures a == TryLock(i) ==>
              At(Next(s, a), i, if s.flock.Nobody? then Body
                                 else if s.now < s.calls[i].deadline then Opened else Closing)
  {
  }

  // ----- one call's code -----

  /** The chain: gate i is resolved once `released[i]` holds. */
  class AsyncMutex {
    var released: seq<bool>

    constructor ()
      ensures released == []
    {
      released := [];
    }

    /** Append a gate behind the current tail. */
    method Join() returns (i: nat)
      modifies this
      ensures i == old(|released|) && released == old(released) + [false]
    {
      i := |released|;
      released := released + [false];
    }

    method ReleaseGate(i: nat)
      requires i < |released|
      modifies this
      ensures released == old(released)[i := true]
    {
      released := released[i := true];
    }
  }

  class LockFile {
    var open: set<nat>

    constructor ()
      ensures open == {}
    {
      open := {};
    }

    method OpenFd(fd: nat)
      modifies this
      ensures open == old(open) + {fd}
    {
      open := open + {fd};
    }

    method CloseFd(fd: nat)
      modifies this
      ensures open == old(open) - {fd}
    {
      open := open - {fd};
    }
  }

  /** What a call meets: whether its turn comes before its deadline, whether the
      file opens, whether attempt k finds the flock free, what the clock reads
      after attempt k, and whether the body throws. */
  datatype Env = Env(granted: bool, opens: bool, free: nat -> bool, clock: nat -> int, throws: bool)

  /** Attempt k is made: every earlier one failed before the deadline. */
  predicate Attempts(env: Env, deadline: int, k: nat) {
    forall j :: 0 <= j < k ==> !env.free(j) && env.clock(j) < deadline
  }

  /** One call of `withReconcileLock`. The body runs exactly when the turn comes,
      the file opens and some attempt finds the flock free; attempts stop at the
      deadline; and on every way out the fd is closed and the gate released. */
  method WithReconcileLock(mutex: AsyncMutex, file: LockFile, fd: nat, deadline: int, retryMs: nat, env: Env)
    returns (outcome: Outcome, runs: nat, attempts: nat)
    requires fd !in file.open && retryMs > 0
    requires forall k: nat :: env.clock(k + 1) >= env.clock(k) + retryMs
    modifies mutex, file
    ensures outcome != Pending && runs <= 1
    ensures runs == 1 <==> env.granted && env.opens && exists k: nat :: Attempts(env, deadline, k) && env.free(k)
    ensures outcome == if runs == 0 then Busy else if env.throws then Threw else Value
    ensures file.open == old(file.open)
    ensures mutex.released == old(mutex.released) + [true]
    ensures attempts > 0 ==> Attempts(env, deadline, attempts - 1)
  {
    var gate := mutex.Join();
    outcome, runs, attempts := Busy, 0, 0;
    if !env.granted {
      mutex.ReleaseGate(gate);
      return;
    }
    if env.opens {
      file.OpenFd(fd);
      while true
        invariant Attempts(env, deadline, attempts)
        invariant outcome == Busy && runs == 0
        invariant mutex.released == old(mutex.released) + [false] && file.open == old(file.open) + {fd}
        decreases deadline - env.clock(attempts)
      {
        if env.free(attempts) {
          runs := 1;
          outcome := if env.throws then Threw else Value;
          attempts := attempts + 1;
          break;
        }
        if env.clock(attempts) >= deadline {
          NoLaterAttempt(env, deadline, attempts);
          attempts := attempts + 1;
          break;
        }
        assert env.clock(attempts + 1) >= env.clock(attempts) + retryMs;
        attempts := attempts + 1;
      }
      file.CloseFd(fd);
    }
    mutex.ReleaseGate(gate);
  }

  lemma NoLaterAttempt(env: Env, deadline: int, k: nat)
    requires Attempts(env, deadline, k) && !env.free(k) && env.clock(k) >= deadline
    ensures !exists n: nat :: Attempts(env, deadline, n) && env.free(n)
  {
    forall n: nat | Attempts(env, deadline, n) ensures !env.free(n) {}
  }
}
