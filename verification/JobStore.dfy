/** The jobs table and everything that writes it: the tick's poll pass
    (fleet/src/reconcile/job-tick.ts), the queries (fleet/src/store/jobs.ts) and
    the API handlers (fleet/src/serve/job-handlers.ts), run one after another.

    Every operation is a function on the table; the class at the end performs
    them in place. */
module JobStore {
  import opened Wrappers
  import opened JobLog
  import Text

  datatype JobState = Starting | Running | Done | Failed | TimedOut | Stopped | Lost | Crashloop

  predicate IsTerminal(s: JobState) {
    s != Starting && s != Running
  }

  datatype Row = Row(
    box: string, lease: Option<string>, owned: bool, createdAt: int, state: JobState, rc: Option<int>,
    startedAt: Option<int>, endedAt: Option<int>, lastPollAt: Option<int>,
    logBytes: nat, log: Counters, lostReason: Option<string>)

  /** The table, the leases given back, the leases that job creation acquired for
      itself, and the mirror files. */
  datatype Table = Table(rows: map<string, Row>, released: set<string>, acquired: set<string>, files: Files)

  // ----- one row -----

  function Coalesce<T>(a: Option<T>, b: Option<T>): Option<T> {
    if a.Some? then a else b
  }

  datatype Update = Update(
    state: JobState, rc: Option<int>, startedAt: Option<int>, endedAt: Option<int>, lastPollAt: int,
    logBytes: Option<nat>, log: Option<Counters>, lostReason: Option<string>)

  /** `updateJob`: a field left out keeps its stored value. */
  function Updated(r: Row, u: Update): Row {
    r.(state := u.state,
       rc := Coalesce(u.rc, r.rc),
       startedAt := Coalesce(u.startedAt, r.startedAt),
       endedAt := Coalesce(u.endedAt, r.endedAt),
       lastPollAt := Some(u.lastPollAt),
       logBytes := Coalesce(u.logBytes, Some(r.logBytes)).value,
       log := Coalesce(u.log, Some(r.log)).value,
       lostReason := Coalesce(u.lostReason, r.lostReason))
  }

  /** `stateFromBox`: an unknown word is a loss that names it. */
  function FromBox(boxState: string): (JobState, Option<string>) {
    if boxState == "running" then (Running, None)
    else if boxState == "done" then (Done, None)
    else if boxState == "failed" then (JobState.Failed, None)
    else if boxState == "timeout" then (TimedOut, None)
    else if boxState == "stopped" then (JobState.Stopped, None)
    else if boxState == "crashloop" then (Crashloop, None)
    else if boxState == "unknown" then (JobState.Lost, Some("no-record"))
    else if Text.StartsWith(boxState, "lost:") then (JobState.Lost, Some(boxState[5..]))
    else (JobState.Lost, Some(boxState))
  }

  /** What the box answers when a job is polled. */
  datatype Answer =
    | Unreadable
    | Status(boxState: string, rc: Option<int>, started: Option<int>, report: JobLog.Status, fetch: Fetch)

  function PolledRow(r: Row, a: Answer, now: int): Row {
    match a
    case Unreadable => Updated(r, Update(r.state, None, None, None, now, None, None, None))
    case Status(boxState, rc, started, report, fetch) =>
      var (state, reason) := FromBox(boxState);
      Updated(r, Update(state, rc, Coalesce(r.startedAt, started),
                        if IsTerminal(state) then Coalesce(r.endedAt, Some(now)) else None,
                        now, Some(report.logBytes), Some(Mirrored(r.log, report, now, fetch).0), reason))
  }

  function PolledFiles(files: Files, id: string, r: Row, a: Answer, now: int): Files {
    match a
    case Unreadable => files
    case Status(_, _, _, report, fetch) => Appended(files, id, Mirrored(r.log, report, now, fetch).1)
  }

  /** `loseJob`, for a row that is still open. */
  function LostRow(r: Row, reason: string, now: int): Row {
    if IsTerminal(r.state) then r
    else r.(state := JobState.Lost, lostReason := Some(reason), endedAt := Coalesce(r.endedAt, Some(now)),
        lastPollAt := Some(now))
  }

  /** `finish`: only a lease the job acquired is given back. */
  function LeaseOf(r: Row): set<string> {
    if r.lease.Some? && r.owned then {r.lease.value} else {}
  }

  /** A row replaced; its lease is given back when that closes it. */
  function Put(t: Table, id: string, r: Row): Table
    requires id in t.rows
  {
    t.(rows := t.rows[id := r],
       released := if IsTerminal(r.state) && !IsTerminal(t.rows[id].state) then t.released + LeaseOf(r) else t.released)
  }

  // ----- the poll pass -----

  /** What a tick finds around it. `clock` is the k-th reading of the budget clock. */
  datatype Env = Env(pollable: set<string>, known: set<string>, now: int, budgetMs: int, clock: nat -> int,
                     answers: map<string, Answer>)

  function AnswerFor(env: Env, id: string): Answer {
    if id in env.answers then env.answers[id] else Unreadable
  }

  function PollOne(t: Table, id: string, a: Answer, now: int): Table
    requires id in t.rows
  {
    Put(t, id, PolledRow(t.rows[id], a, now)).(files := PolledFiles(t.files, id, t.rows[id], a, now))
  }

  /** The rest of the pass: `polled` jobs polled so far. The clock is read once
      at the start and once for every job met after the first poll. */
  function Pass(t: Table, due: seq<string>, polled: nat, readings: nat, env: Env): (u: Table)
    requires forall i :: 0 <= i < |due| ==> due[i] in t.rows
    ensures u.rows.Keys == t.rows.Keys
    decreases |due|
  {
    if due == [] then t
    else
      var id := due[0];
      var r := t.rows[id];
      if r.box !in env.known then
        Pass(Put(t, id, LostRow(r, "box-gone", env.now)), due[1..], polled, readings, env)
      else if r.box !in env.pollable then Pass(t, due[1..], polled, readings, env)
      else if polled > 0 && env.clock(readings) - env.clock(0) >= env.budgetMs then
        Pass(t, due[1..], polled, readings + 1, env)
      else
        Pass(PollOne(t, id, AnswerFor(env, id), env.now), due[1..], polled + 1,
             if polled > 0 then readings + 1 else readings, env)
  }

  /** `a` is polled no later than `b`: never polled first, then oldest poll, then oldest job. */
  predicate NoLater(a: Row, b: Row) {
    match (a.lastPollAt, b.lastPollAt)
    case (None, None) => a.createdAt <= b.createdAt
    case (None, Some(_)) => true
    case (Some(_), None) => false
    case (Some(x), Some(y)) => x < y || (x == y && a.createdAt <= b.createdAt)
  }

  predicate Open(rows: map<string, Row>, id: string) {
    id in rows && !IsTerminal(rows[id].state)
  }

  /** Any list the due query may return: all open jobs, each once, in order. */
  ghost predicate IsDue(rows: map<string, Row>, due: seq<string>) {
    && (forall id :: Open(rows, id) ==> id in due)
    && (forall i :: 0 <= i < |due| ==> Open(rows, due[i]))
    && (forall i, j :: 0 <= i < j < |due| ==> due[i] != due[j] && NoLater(rows[due[i]], rows[due[j]]))
  }

  // ----- the handlers -----

  /** `handleJobCreate` from the point where box and lease are settled; `lease` is
      Some(id, true) when the handler acquired it. `startRc` is the box's answer. */
  function Create(t: Table, id: string, box: string, lease: string, owned: bool, startRc: Option<int>, now: int): Table
    requires id !in t.rows
  {
    var u := if owned then t.(acquired := t.acquired + {lease}) else t;
    if exists other | other in t.rows :: Open(t.rows, other) && t.rows[other].box == box then
      if owned then u.(released := u.released + {lease}) else u
    else
      var row := Row(box, Some(lease), owned, now, Starting, None, None, None, None, 0, FRESH, None);
      var v := u.(rows := u.rows[id := row]);
      if startRc == Some(0) then
        Put(v, id, Updated(row, Update(Running, None, Some(now), None, now, None, None, None)))
      else
        Put(v, id, Updated(row, Update(JobState.Lost, None, None, Some(now), now, None, None,
                                       Some(if startRc == Some(75) then "box-slot-busy" else "start-failed"))))
  }

  /** `handleJobGet` with refresh: polls unless the row is already terminal. */
  function Refresh(t: Table, id: string, a: Answer, now: int): Table {
    if Open(t.rows, id) then PollOne(t, id, a, now) else t
  }

  /** `handleJobStop`. */
  function Stop(t: Table, id: string, rc: Option<int>, now: int): Table {
    if Open(t.rows, id) && rc == Some(0) then
      Put(t, id, Updated(t.rows[id], Update(JobState.Stopped, Some(143), None, Some(now), now, None, None, None)))
    else t
  }

  /** `pruneJobs` deletes these: terminal, and old by their end or last poll. */
  predicate Doomed(r: Row, cutoff: int) {
    IsTerminal(r.state) && Coalesce(r.endedAt, r.lastPollAt).Some? && Coalesce(r.endedAt, r.lastPollAt).value < cutoff
  }

  function DoomedIds(rows: map<string, Row>, cutoff: int): set<string> {
    set id | id in rows && Doomed(rows[id], cutoff)
  }

  function Prune(t: Table, days: nat, at: int): Table {
    if days == 0 then t
    else
      var doomed := DoomedIds(t.rows, at - days * 86400);
      t.(rows := t.rows - doomed, files := t.files - doomed)
  }

  // ----- what one pass does to every row -----

  /** The part of a row that no poll touches. */
  ghost predicate SameJob(a: Row, b: Row) {
    a.box == b.box && a.lease == b.lease && a.owned == b.owned && a.createdAt == b.createdAt
  }

  /** A row after a tick: left alone, or polled or closed at this tick. */
  ghost predicate Ticked(a: Row, b: Row, now: int) {
    SameJob(a, b) && (b == a || b.lastPollAt == Some(now))
  }

  lemma PolledRowTicked(r: Row, a: Answer, now: int)
    ensures Ticked(r, PolledRow(r, a, now), now) && PolledRow(r, a, now).lastPollAt == Some(now)
  {
    hide FromBox, Mirrored;
  }

  lemma {:induction false} PassTicks(t: Table, due: seq<string>, polled: nat, readings: nat, env: Env)
    requires forall i :: 0 <= i < |due| ==> due[i] in t.rows
    requires forall i, j :: 0 <= i < j < |due| ==> due[i] != due[j]
    ensures forall id :: id in t.rows ==> Ticked(t.rows[id], Pass(t, due, polled, readings, env).rows[id], env.now)
    ensures forall id :: id in t.rows && id !in due ==> Pass(t, due, polled, readings, env).rows[id] == t.rows[id]
    decreases |due|
  {
    if due != [] {
      var id := due[0];
      var r := t.rows[id];
      PolledRowTicked(r, AnswerFor(env, id), env.now);
      assert Ticked(r, LostRow(r, "box-gone", env.now), env.now);
      hide PolledRow, PolledFiles, LostRow, AnswerFor;
      var lost := Put(t, id, LostRow(r, "box-gone", env.now));
      var asked := PollOne(t, id, AnswerFor(env, id), env.now);
      if r.box !in env.known {
        PassTicks(lost, due[1..], polled, readings, env);
      } else if r.box !in env.pollable {
        PassTicks(t, due[1..], polled, readings, env);
      } else if polled > 0 && env.clock(readings) - env.clock(0) >= env.budgetMs {
        PassTicks(t, due[1..], polled, readings + 1, env);
      } else {
        PassTicks(asked, due[1..], polled + 1, if polled > 0 then readings + 1 else readings, env);
      }
    }
  }

  /** The jobs a tick may ask about. */
  predicate Live(rows: map<string, Row>, id: string, env: Env) {
    Open(rows, id) && rows[id].box in env.known && rows[id].box in env.pollable
  }

  /** The first live job in due order is always polled: the budget is checked
      only after the first poll. */
  lemma {:induction false} FirstIsPolled(t: Table, due: seq<string>, readings: nat, env: Env, k: nat)
    requires forall i :: 0 <= i < |due| ==> due[i] in t.rows
    requires forall i, j :: 0 <= i < j < |due| ==> due[i] != due[j]
    requires k < |due| && t.rows[due[k]].box in env.known && t.rows[due[k]].box in env.pollable
    requires forall i :: 0 <= i < k ==> t.rows[due[i]].box !in env.known || t.rows[due[i]].box !in env.pollable
    ensures Pass(t, due, 0, readings, env).rows[due[k]].lastPollAt == Some(env.now)
    decreases |due|
  {
    var id := due[0];
    var r := t.rows[id];
    PolledRowTicked(r, AnswerFor(env, id), env.now);
    hide PolledRow, PolledFiles, LostRow, AnswerFor, Ticked;
    if k == 0 {
      var asked := PollOne(t, id, AnswerFor(env, id), env.now);
      assert id !in due[1..];
      PassTicks(asked, due[1..], 1, readings, env);
    } else if r.box !in env.known {
      FirstIsPolled(Put(t, id, LostRow(r, "box-gone", env.now)), due[1..], readings, env, k - 1);
    } else {
      FirstIsPolled(t, due[1..], readings, env, k - 1);
    }
  }

  // ----- fairness -----

  /** The live jobs that may be polled before `job`. */
  ghost function Ahead(rows: map<string, Row>, job: string, env: Env): set<string>
    requires job in rows
  {
    set id | id in rows && id != job && Live(rows, id, env) && NoLater(rows[id], rows[job])
  }

  /** The tick's time is later than every poll on record. */
  ghost predicate Fresh(rows: map<string, Row>, now: int) {
    forall id :: id in rows && rows[id].lastPollAt.Some? ==> rows[id].lastPollAt.value < now
  }

  /** A live job that a tick leaves alone moves ahead in the queue. */
  lemma LeftAloneMovesUp(t: Table, due: seq<string>, env: Env, job: string)
    requires IsDue(t.rows, due) && Fresh(t.rows, env.now) && Live(t.rows, job, env)
    ensures var rows := Pass(t, due, 0, 1, env).rows;
            && job in rows
            && (rows[job].lastPollAt != Some(env.now) ==>
                  rows[job] == t.rows[job] && Ahead(rows, job, env) < Ahead(t.rows, job, env))
  {
    var rows := Pass(t, due, 0, 1, env).rows;
    PassTicks(t, due, 0, 1, env);
    var k := FirstLive(t.rows, due, env, job);
    FirstIsPolled(t, due, 1, env, k);
    hide Pass;
    if rows[job].lastPollAt != Some(env.now) {
      var head := due[k];
      assert Ticked(t.rows[job], rows[job], env.now);
      assert head in Ahead(t.rows, job, env);
      assert !NoLater(rows[head], rows[job]);
      assert head !in Ahead(rows, job, env);
      forall id | id in Ahead(rows, job, env) ensures id in Ahead(t.rows, job, env) {
        assert Ticked(t.rows[id], rows[id], env.now);
      }
    }
  }

  lemma FirstLive(rows: map<string, Row>, due: seq<string>, env: Env, job: string) returns (k: nat)
    requires IsDue(rows, due) && Live(rows, job, env)
    ensures k < |due| && Live(rows, due[k], env) && (due[k] == job || NoLater(rows[due[k]], rows[job]))
    ensures forall i :: 0 <= i < k ==> !Live(rows, due[i], env)
  {
    assert job in due;
    var at :| 0 <= at < |due| && due[at] == job;
    k := 0;
    while !Live(rows, due[k], env)
      invariant k <= at
      invariant forall i :: 0 <= i < k ==> !Live(rows, due[i], env)
      decreases at - k
    {
      k := k + 1;
    }
  }

  datatype Tick = Tick(due: seq<string>, env: Env)

  /** A run of ticks over one pollable, known fleet, at strictly later times. */
  ghost predicate TickRun(t: Table, ticks: seq<Tick>, fleet: Env)
    decreases |ticks|
  {
    ticks == [] ||
    (&& IsDue(t.rows, ticks[0].due) && Fresh(t.rows, ticks[0].env.now)
     && ticks[0].env.pollable == fleet.pollable && ticks[0].env.known == fleet.known
     && TickRun(Pass(t, ticks[0].due, 0, 1, ticks[0].env), ticks[1..], fleet))
  }

  /** Some tick of the run polls the job, or closes it. */
  ghost predicate Served(t: Table, ticks: seq<Tick>, fleet: Env, job: string)
    requires TickRun(t, ticks, fleet) && job in t.rows
    decreases |ticks|
  {
    ticks != [] &&
    (PassTicks(t, ticks[0].due, 0, 1, ticks[0].env);
     var next := Pass(t, ticks[0].due, 0, 1, ticks[0].env);
     next.rows[job].lastPollAt == Some(ticks[0].env.now) || Served(next, ticks[1..], fleet, job))
  }

  /** A live job is served within one tick more than there are jobs ahead of it,
      even when every tick affords a single poll. */
  lemma {:induction false} PollFairness(t: Table, ticks: seq<Tick>, fleet: Env, job: string)
    requires TickRun(t, ticks, fleet) && Live(t.rows, job, fleet)
    requires |ticks| > |Ahead(t.rows, job, fleet)|
    ensures Served(t, ticks, fleet, job)
    decreases |ticks|
  {
    var tick := ticks[0];
    var next := Pass(t, tick.due, 0, 1, tick.env);
    LeftAloneMovesUp(t, tick.due, tick.env, job);
    assert Ahead(t.rows, job, tick.env) == Ahead(t.rows, job, fleet);
    assert job in next.rows;
    assert Ahead(next.rows, job, tick.env) == Ahead(next.rows, job, fleet);
    hide Pass, IsDue, Fresh;
    if next.rows[job].lastPollAt != Some(tick.env.now) {
      SubsetIsSmaller(Ahead(next.rows, job, fleet), Ahead(t.rows, job, fleet));
      PollFairness(next, ticks[1..], fleet, job);
    }
  }

  lemma SubsetIsSmaller(a: set<string>, b: set<string>)
    requires a < b
    ensures |a| < |b|
  {
    var x :| x in b && x !in a;
    assert a <= b - {x};
    SubsetIsNoLarger(a, b - {x});
  }

  lemma {:induction false} SubsetIsNoLarger(a: set<string>, b: set<string>)
    requires a <= b
    ensures |a| <= |b|
    decreases |a|
  {
    if a != {} {
      var x :| x in a;
      SubsetIsNoLarger(a - {x}, b - {x});
    }
  }

  /** With n live jobs in all, n ticks serve every one of them. */
  lemma EveryJobIsServed(t: Table, ticks: seq<Tick>, fleet: Env, job: string)
    requires TickRun(t, ticks, fleet) && Live(t.rows, job, fleet)
    requires |ticks| >= |set id | id in t.rows && Live(t.rows, id, fleet)|
    ensures Served(t, ticks, fleet, job)
  {
    var live := set id | id in t.rows && Live(t.rows, id, fleet);
    hide TickRun, Served;
    assert job in live && job !in Ahead(t.rows, job, fleet) && Ahead(t.rows, job, fleet) <= live;
    SubsetIsSmaller(Ahead(t.rows, job, fleet), live);
    PollFairness(t, ticks, fleet, job);
  }

  // ----- the life of a job -----

  datatype Event =
    | Creating(id: string, box: string, lease: string, owned: bool, startRc: Option<int>, at: int)
    | Ticking(due: seq<string>, env: Env)
    | Refreshing(id: string, answer: Answer, at: int)
    | Stopping(id: string, rc: Option<int>, at: int)
    | Pruning(days: nat, at: int)

  /** What the code around the handlers guarantees: a new job has a new id, and a
      lease it acquires is new; the due list is the query's. */
  ghost predicate Allowed(t: Table, e: Event) {
    match e
    case Creating(id, _, lease, owned, _, _) =>
      id !in t.rows && id !in t.files && (owned ==> lease !in t.acquired && lease !in t.released)
    case Ticking(due, _) => IsDue(t.rows, due)
    case _ => true
  }

  function After(t: Table, e: Event): Table
    requires Allowed(t, e)
  {
    match e
    case Creating(id, box, lease, owned, rc, at) => Create(t, id, box, lease, owned, rc, at)
    case Ticking(due, env) =>
      Pass(t, due, 0, 1, env)
    case Refreshing(id, a, at) => Refresh(t, id, a, at)
    case Stopping(id, rc, at) => Stop(t, id, rc, at)
    case Pruning(days, at) => Prune(t, days, at)
  }

  ghost predicate Runs(t: Table, es: seq<Event>)
    decreases |es|
  {
    es == [] || (Allowed(t, es[0]) && Runs(After(t, es[0]), es[1..]))
  }

  function Final(t: Table, es: seq<Event>): Table
    requires Runs(t, es)
    decreases |es|
  {
    if es == [] then t else Final(After(t, es[0]), es[1..])
  }

  /** An open job acquired this lease and holds it. */
  ghost predicate Held(t: Table, lease: string) {
    exists id :: Open(t.rows, id) && lease in LeaseOf(t.rows[id])
  }

  /** Every lease that a job acquired is held by an open job or was given back, and not
      both; no two jobs acquired the same. */
  ghost predicate LeasesKept(t: Table) {
    && (forall id :: Open(t.rows, id) ==> LeaseOf(t.rows[id]) !! t.released)
    && (forall i, j :: i in t.rows && j in t.rows && i != j ==> LeaseOf(t.rows[i]) !! LeaseOf(t.rows[j]))
    && (forall l :: l in t.acquired ==> l in t.released || Held(t, l))
  }

  /** A job that ended gave back the lease it acquired, and an open one did not; only such
      leases were given back, and none of them leaks; a box has one open job; every mirror
      file has its row. */
  ghost predicate Sound(t: Table) {
    && (forall id :: id in t.rows && IsTerminal(t.rows[id].state) ==> LeaseOf(t.rows[id]) <= t.released)
    && (forall id :: id in t.rows ==> LeaseOf(t.rows[id]) <= t.acquired)
    && t.released <= t.acquired && LeasesKept(t)
    && (forall i, j :: Open(t.rows, i) && Open(t.rows, j) && t.rows[i].box == t.rows[j].box ==> i == j)
    && (forall id :: id in t.files ==> id in t.rows)
  }

  /** Rows that have ended stay as they are until they are pruned. */
  ghost predicate KeepsEnded(t: Table, u: Table) {
    forall id :: id in t.rows && id in u.rows && IsTerminal(t.rows[id].state) ==> u.rows[id] == t.rows[id]
  }

  /** No open row disappears, and none that has not ended loses its mirror. */
  ghost predicate KeepsOpen(t: Table, u: Table) {
    forall id :: Open(t.rows, id) ==> id in u.rows
  }

  lemma PutKeepsLeases(t: Table, id: string, r: Row)
    requires LeasesKept(t) && Open(t.rows, id) && LeaseOf(r) == LeaseOf(t.rows[id])
    ensures LeasesKept(Put(t, id, r))
  {
    var u := Put(t, id, r);
    hide LeaseOf, IsTerminal;
    assert forall i :: i != id ==> (Open(u.rows, i) <==> Open(t.rows, i));
    forall l | l in u.acquired ensures l in u.released || Held(u, l) {
      if l !in t.released {
        assert Held(t, l);
        var i :| Open(t.rows, i) && l in LeaseOf(t.rows[i]);
        assert l in LeaseOf(u.rows[i]);
      }
    }
  }

  lemma NewRowKeepsLeases(t: Table, u: Table, id: string, r: Row)
    requires LeasesKept(t) && id !in t.rows && u.rows == t.rows[id := r]
    requires forall i :: i in t.rows ==> LeaseOf(t.rows[i]) <= t.acquired
    requires LeaseOf(r) !! t.acquired && LeaseOf(r) !! t.released
    requires u.acquired == t.acquired + LeaseOf(r)
    requires u.released == if IsTerminal(r.state) then t.released + LeaseOf(r) else t.released
    ensures LeasesKept(u)
  {
    hide LeaseOf, IsTerminal;
    assert forall i :: i != id ==> (Open(u.rows, i) <==> Open(t.rows, i));
    forall i | Open(u.rows, i) ensures LeaseOf(u.rows[i]) !! u.released {
      assert i != id ==> LeaseOf(t.rows[i]) <= t.acquired;
    }
    forall l | l in u.acquired ensures l in u.released || Held(u, l) {
      if l in t.acquired && l !in t.released {
        assert Held(t, l);
        var i :| Open(t.rows, i) && l in LeaseOf(t.rows[i]);
        assert l in LeaseOf(u.rows[i]);
      } else if l in LeaseOf(r) && !IsTerminal(r.state) {
        assert Open(u.rows, id) && l in LeaseOf(u.rows[id]);
      }
    }
  }

  lemma NoRowKeepsLeases(t: Table, u: Table, own: set<string>)
    requires LeasesKept(t) && u.rows == t.rows && own !! t.acquired
    requires forall i :: i in t.rows ==> LeaseOf(t.rows[i]) <= t.acquired
    requires u.acquired == t.acquired + own && u.released == t.released + own
    ensures LeasesKept(u)
  {
    hide LeaseOf, IsTerminal;
    forall i | Open(u.rows, i) ensures LeaseOf(u.rows[i]) !! u.released {
      assert LeaseOf(t.rows[i]) <= t.acquired;
    }
    forall l | l in u.acquired ensures l in u.released || Held(u, l) {
      if l in t.acquired && l !in t.released {
        assert Held(t, l);
        var i :| Open(t.rows, i) && l in LeaseOf(t.rows[i]);
        assert l in LeaseOf(u.rows[i]);
      }
    }
  }

  lemma FewerRowsKeepLeases(t: Table, u: Table)
    requires LeasesKept(t) && u.acquired == t.acquired && u.released == t.released
    requires forall id :: id in u.rows ==> id in t.rows && u.rows[id] == t.rows[id]
    requires forall id :: Open(t.rows, id) ==> id in u.rows
    ensures LeasesKept(u)
  {
    hide LeaseOf, IsTerminal;
    forall l | l in u.acquired ensures l in u.released || Held(u, l) {
      if l !in t.released {
        assert Held(t, l);
        var i :| Open(t.rows, i) && l in LeaseOf(t.rows[i]);
        assert l in LeaseOf(u.rows[i]);
      }
    }
  }

  lemma PutIsSound(t: Table, id: string, r: Row)
    requires Sound(t) && Open(t.rows, id) && SameJob(t.rows[id], r)
    ensures Sound(Put(t, id, r)) && KeepsEnded(t, Put(t, id, r)) && KeepsOpen(t, Put(t, id, r))
  {
    hide LeasesKept, IsTerminal;
    var u := Put(t, id, r);
    assert forall i :: i != id ==> (Open(u.rows, i) <==> Open(t.rows, i));
    assert LeaseOf(r) == LeaseOf(t.rows[id]);
    PutKeepsLeases(t, id, r);
    hide LeaseOf;
  }

  lemma PollOneIsSound(t: Table, id: string, a: Answer, now: int)
    requires Sound(t) && Open(t.rows, id)
    ensures var u := PollOne(t, id, a, now); Sound(u) && KeepsEnded(t, u) && KeepsOpen(t, u)
  {
    var r := PolledRow(t.rows[id], a, now);
    PolledRowTicked(t.rows[id], a, now);
    PutIsSound(t, id, r);
    var files := PolledFiles(t.files, id, t.rows[id], a, now);
    assert forall i :: i in files ==> i in t.files || i == id by { hide Mirrored; }
    hide Put, PolledRow, PolledFiles, IsTerminal, LeaseOf;
    SameLeases(Put(t, id, r), PollOne(t, id, a, now));
    hide LeasesKept;
  }

  lemma SameLeases(t: Table, u: Table)
    requires LeasesKept(t) && u == t.(files := u.files)
    ensures LeasesKept(u)
  {
    hide LeaseOf;
    FewerRowsKeepLeases(t, u);
  }

  /** What every step keeps: soundness, the rows that ended, the rows still open. */
  ghost predicate Keeps(t: Table, u: Table) {
    Sound(u) && KeepsEnded(t, u) && KeepsOpen(t, u)
  }

  lemma KeepsIsTransitive(t: Table, u: Table, v: Table)
    requires t.rows.Keys == u.rows.Keys && Keeps(t, u) && Keeps(u, v) && u.rows.Keys == v.rows.Keys
    ensures Keeps(t, v)
  {
    hide Sound;
    forall id | id in t.rows && IsTerminal(t.rows[id].state) ensures v.rows[id] == t.rows[id] {
      assert u.rows[id] == t.rows[id];
    }
  }

  /** The other jobs of a pass are still open after one of them is handled. */
  ghost predicate AllOpen(rows: map<string, Row>, due: seq<string>) {
    && (forall i :: 0 <= i < |due| ==> Open(rows, due[i]))
    && (forall i, j :: 0 <= i < j < |due| ==> due[i] != due[j])
  }

  lemma OthersStayOpen(t: Table, due: seq<string>, r: Row)
    requires due != [] && AllOpen(t.rows, due)
    ensures AllOpen(t.rows[due[0] := r], due[1..]) && AllOpen(t.rows, due[1..]) && due[0] in t.rows
  {
    assert forall i :: 0 <= i < |due| - 1 ==> due[1..][i] == due[i + 1] != due[0];
  }

  lemma LostIsSound(t: Table, id: string, now: int)
    requires Sound(t) && Open(t.rows, id)
    ensures Keeps(t, Put(t, id, LostRow(t.rows[id], "box-gone", now)))
  {
    assert SameJob(t.rows[id], LostRow(t.rows[id], "box-gone", now));
    hide Sound, Put;
    PutIsSound(t, id, LostRow(t.rows[id], "box-gone", now));
  }

  lemma KeepsItself(t: Table)
    requires Sound(t)
    ensures Keeps(t, t)
  {
    hide Sound;
  }

  lemma {:induction false} PassIsSound(t: Table, due: seq<string>, polled: nat, readings: nat, env: Env)
    requires Sound(t) && AllOpen(t.rows, due)
    ensures Keeps(t, Pass(t, due, polled, readings, env))
    decreases |due|
  {
    hide Sound, Keeps, PolledRow, LostRow, AnswerFor, PolledFiles, LeaseOf;
    if due == [] {
      KeepsItself(t);
    } else {
      var id := due[0];
      var r := t.rows[id];
      var a := AnswerFor(env, id);
      var lost, asked := Put(t, id, LostRow(r, "box-gone", env.now)), PollOne(t, id, a, env.now);
      assert Open(t.rows, id);
      OthersStayOpen(t, due, LostRow(r, "box-gone", env.now));
      OthersStayOpen(t, due, PolledRow(r, a, env.now));
      assert lost.rows == t.rows[id := LostRow(r, "box-gone", env.now)]
          && asked.rows == t.rows[id := PolledRow(r, a, env.now)];
      hide Put, PollOne, AllOpen;
      LostIsSound(t, id, env.now);
      PollOneIsSound(t, id, a, env.now);
      KeepsIs(t, asked);
      SoundAfter(t, lost);
      if r.box !in env.known {
        PassIsSound(lost, due[1..], polled, readings, env);
        KeepsIsTransitive(t, lost, Pass(t, due, polled, readings, env));
      } else if r.box !in env.pollable {
        PassIsSound(t, due[1..], polled, readings, env);
      } else if polled > 0 && env.clock(readings) - env.clock(0) >= env.budgetMs {
        PassIsSound(t, due[1..], polled, readings + 1, env);
      } else {
        PassIsSound(asked, due[1..], polled + 1, if polled > 0 then readings + 1 else readings, env);
        KeepsIsTransitive(t, asked, Pass(t, due, polled, readings, env));
      }
    }
  }

  lemma KeepsIs(t: Table, u: Table)
    requires Sound(u) && KeepsEnded(t, u) && KeepsOpen(t, u)
    ensures Keeps(t, u)
  {
  }

  lemma SoundAfter(t: Table, u: Table)
    requires Keeps(t, u)
    ensures Sound(u)
  {
  }

  /** A new row, open or already lost, beside the old ones. */
  lemma NewRowIsSound(t: Table, u: Table, id: string, r: Row)
    requires Sound(t) && id !in t.rows && u.rows == t.rows[id := r] && u.files == t.files
    requires forall i :: Open(t.rows, i) ==> t.rows[i].box != r.box
    requires LeaseOf(r) !! t.acquired && u.acquired == t.acquired + LeaseOf(r)
    requires u.released == if IsTerminal(r.state) then t.released + LeaseOf(r) else t.released
    ensures Keeps(t, u)
  {
    hide LeaseOf, IsTerminal, LeasesKept;
    NewRowKeepsLeases(t, u, id, r);
    assert forall i :: i != id ==> (Open(u.rows, i) <==> Open(t.rows, i));
  }

  lemma NoRowIsSound(t: Table, u: Table, own: set<string>)
    requires Sound(t) && own !! t.acquired
    requires u == t.(acquired := t.acquired + own, released := t.released + own)
    ensures Keeps(t, u)
  {
    hide LeaseOf;
    NoRowKeepsLeases(t, u, own);
    hide LeasesKept;
  }

  ghost predicate Occupied(t: Table, box: string) {
    exists other :: Open(t.rows, other) && t.rows[other].box == box
  }

  /** What creation does to the table, on a box that is free and on one that is not. */
  lemma CreateShape(t: Table, id: string, box: string, lease: string, owned: bool, startRc: Option<int>, now: int)
    requires id !in t.rows
    ensures var u, own := Create(t, id, box, lease, owned, startRc, now), if owned then {lease} else {};
            && u.acquired == t.acquired + own && u.files == t.files
            && if Occupied(t, box) then u.rows == t.rows && u.released == t.released + own
               else
                 && id in u.rows && u.rows == t.rows[id := u.rows[id]]
                 && u.rows[id].box == box && LeaseOf(u.rows[id]) == own
                 && u.released == if IsTerminal(u.rows[id].state) then t.released + own else t.released
  {
    assert t.acquired + {} == t.acquired && t.released + {} == t.released;
    hide Open;
    var u := Create(t, id, box, lease, owned, startRc, now);
    if !Occupied(t, box) {
      var start := Row(box, Some(lease), owned, now, Starting, None, None, None, None, 0, FRESH, None);
      assert t.rows[id := start][id := u.rows[id]] == t.rows[id := u.rows[id]];
    }
  }

  lemma CreateIsSound(t: Table, id: string, box: string, lease: string, owned: bool, startRc: Option<int>, now: int)
    requires Sound(t) && Allowed(t, Creating(id, box, lease, owned, startRc, now))
    ensures Keeps(t, Create(t, id, box, lease, owned, startRc, now))
  {
    var u := Create(t, id, box, lease, owned, startRc, now);
    CreateShape(t, id, box, lease, owned, startRc, now);
    var own := if owned then {lease} else {};
    assert own !! t.acquired;
    hide Sound, Keeps, Create, Open, LeaseOf;
    if Occupied(t, box) {
      NoRowIsSound(t, u, own);
    } else {
      NewRowIsSound(t, u, id, u.rows[id]);
    }
  }

  lemma PruneIsSound(t: Table, days: nat, at: int)
    requires Sound(t)
    ensures Keeps(t, Prune(t, days, at))
  {
    hide LeaseOf;
    FewerRowsKeepLeases(t, Prune(t, days, at));
    hide LeasesKept;
  }

  lemma StepIsSound(t: Table, e: Event)
    requires Sound(t) && Allowed(t, e)
    ensures Keeps(t, After(t, e))
  {
    match e
    case Creating(id, box, lease, owned, rc, at) =>
      hide Sound, Create;
      CreateIsSound(t, id, box, lease, owned, rc, at);
    case Ticking(due, env) =>
      assert AllOpen(t.rows, due);
      hide Sound, Pass, AllOpen, IsDue;
      PassIsSound(t, due, 0, 1, env);
    case Refreshing(id, a, at) =>
      assert Keeps(t, t);
      hide Sound, PollOne;
      if Open(t.rows, id) {
        PollOneIsSound(t, id, a, at);
      }
    case Stopping(id, rc, at) =>
      assert Keeps(t, t);
      hide Sound, Put;
      if Open(t.rows, id) && rc == Some(0) {
        PutIsSound(t, id, Updated(t.rows[id],
                   Update(JobState.Stopped, Some(143), None, Some(at), at, None, None, None)));
      }
    case Pruning(days, at) =>
      hide Sound, Prune;
      PruneIsSound(t, days, at);
  }

  /** In every run of handlers: a lease that a job acquired is given back exactly when that
      job is not open any more, or was never created, and no other lease is; a box has at
      most one open job, and every mirror file has its row. */
  lemma {:induction false} RunIsSound(t: Table, es: seq<Event>)
    requires Sound(t) && Runs(t, es)
    ensures Sound(Final(t, es))
    decreases |es|
  {
    if es != [] {
      StepIsSound(t, es[0]);
      hide After, Allowed, KeepsEnded, KeepsOpen;
      assert Sound(After(t, es[0]));
      hide Sound;
      RunIsSound(After(t, es[0]), es[1..]);
    }
  }

  /** From here on the row is `r`, until it is pruned. */
  ghost predicate Frozen(t: Table, es: seq<Event>, id: string, r: Row)
    requires Runs(t, es)
    decreases |es|
  {
    id !in t.rows || (t.rows[id] == r && (es == [] || Frozen(After(t, es[0]), es[1..], id, r)))
  }

  /** A terminal state, and the whole row with it, never changes again. */
  lemma {:induction false} TerminalIsFinal(t: Table, es: seq<Event>, id: string)
    requires Sound(t) && Runs(t, es)
    requires id in t.rows && IsTerminal(t.rows[id].state)
    ensures Frozen(t, es, id, t.rows[id])
    decreases |es|
  {
    if es != [] {
      var u := After(t, es[0]);
      StepIsSound(t, es[0]);
      hide After, Allowed, Sound, KeepsOpen, IsTerminal;
      if id in u.rows {
        TerminalIsFinal(u, es[1..], id);
      }
    }
  }

  // ----- what one pass does, job by job -----

  /** The live jobs among these. */
  function LiveAmong(rows: map<string, Row>, ids: seq<string>, env: Env): nat {
    if ids == [] then 0 else (if Live(rows, ids[0], env) then 1 else 0) + LiveAmong(rows, ids[1..], env)
  }

  lemma {:induction false} LiveAmongSame(rows: map<string, Row>, id: string, r: Row, ids: seq<string>, env: Env)
    requires id !in ids
    ensures LiveAmong(rows[id := r], ids, env) == LiveAmong(rows, ids, env)
  {
    if ids != [] {
      LiveAmongSame(rows, id, r, ids[1..], env);
    }
  }

  /** A job is asked if its box is known and can be polled, and it is the first such job or
      the clock, read once for each such job after the first, is still within the budget. */
  predicate IsAsked(r: Row, ahead: nat, env: Env) {
    && r.box in env.known && r.box in env.pollable
    && (ahead == 0 || env.clock(ahead) - env.clock(0) < env.budgetMs)
  }

  /** An open row after a pass, with `ahead` live jobs in front of it. */
  function RowAfter(r: Row, a: Answer, ahead: nat, env: Env): Row {
    if r.box !in env.known then
      r.(state := JobState.Lost, lostReason := Some("box-gone"), lastPollAt := Some(env.now),
         endedAt := if r.endedAt.Some? then r.endedAt else Some(env.now))
    else if IsAsked(r, ahead, env) then PolledRow(r, a, env.now)
    else r
  }

  /** What the pass writes to the job's mirror. */
  function Written(r: Row, a: Answer, ahead: nat, env: Env): seq<Piece> {
    if IsAsked(r, ahead, env) && a.Status? then Mirrored(r.log, a.report, env.now, a.fetch).1 else []
  }

  ghost predicate PassedAs(t: Table, u: Table, id: string, ahead: nat, env: Env) {
    && id in t.rows && id in u.rows
    && var a := if id in env.answers then env.answers[id] else Unreadable;
       && u.rows[id] == RowAfter(t.rows[id], a, ahead, env)
       && FileOf(u.files, id) == FileOf(t.files, id) + Written(t.rows[id], a, ahead, env)
  }

  lemma {:induction false} PassSpares(t: Table, due: seq<string>, polled: nat, readings: nat, env: Env, id: string)
    requires AllOpen(t.rows, due) && id !in due
    ensures var u := Pass(t, due, polled, readings, env);
            (id in u.rows <==> id in t.rows) && (id in t.rows ==> u.rows[id] == t.rows[id])
            && FileOf(u.files, id) == FileOf(t.files, id)
    decreases |due|
  {
    hide PolledRow, LostRow, AnswerFor, Mirrored, LeaseOf;
    if due != [] {
      var head := due[0];
      var r, a := t.rows[head], AnswerFor(env, head);
      OthersStayOpen(t, due, LostRow(r, "box-gone", env.now));
      OthersStayOpen(t, due, PolledRow(r, a, env.now));
      hide AllOpen;
      if r.box !in env.known {
        PassSpares(Put(t, head, LostRow(r, "box-gone", env.now)), due[1..], polled, readings, env, id);
      } else if r.box !in env.pollable {
        PassSpares(t, due[1..], polled, readings, env, id);
      } else if polled > 0 && env.clock(readings) - env.clock(0) >= env.budgetMs {
        PassSpares(t, due[1..], polled, readings + 1, env, id);
      } else {
        PassSpares(PollOne(t, head, a, env.now), due[1..], polled + 1,
                   if polled > 0 then readings + 1 else readings, env, id);
      }
    }
  }

  lemma LiveAmongStep(rows: map<string, Row>, ids: seq<string>, env: Env)
    requires ids != []
    ensures LiveAmong(rows, ids, env) == (if Live(rows, ids[0], env) then 1 else 0) + LiveAmong(rows, ids[1..], env)
  {
  }

  lemma PassedSame(t: Table, v: Table, u: Table, id: string, ahead: nat, env: Env)
    requires PassedAs(v, u, id, ahead, env) && id in t.rows && t.rows[id] == v.rows[id]
    requires FileOf(v.files, id) == FileOf(t.files, id)
    ensures PassedAs(t, u, id, ahead, env)
  {
  }

  lemma HeadExactly(t: Table, due: seq<string>, polled: nat, readings: nat, env: Env, seen: nat)
    requires AllOpen(t.rows, due) && due != []
    requires (polled > 0 <==> seen > 0) && readings == if seen == 0 then 1 else seen
    ensures PassedAs(t, Pass(t, due, polled, readings, env), due[0], seen, env)
  {
    hide PolledRow, Mirrored, LeaseOf, FileOf;
    var head := due[0];
    var r, a := t.rows[head], AnswerFor(env, head);
    var lost, asked := LostRow(r, "box-gone", env.now), PolledRow(r, a, env.now);
    OthersStayOpen(t, due, lost);
    OthersStayOpen(t, due, asked);
    assert Open(t.rows, head) && head !in due[1..];
    hide AllOpen;
    if r.box !in env.known {
      PassSpares(Put(t, head, lost), due[1..], polled, readings, env, head);
    } else if r.box !in env.pollable {
      PassSpares(t, due[1..], polled, readings, env, head);
    } else if polled > 0 && env.clock(readings) - env.clock(0) >= env.budgetMs {
      PassSpares(t, due[1..], polled, readings + 1, env, head);
    } else {
      var v := PollOne(t, head, a, env.now);
      PassSpares(v, due[1..], polled + 1, if polled > 0 then readings + 1 else readings, env, head);
      PolledFile(t, head, a, env.now);
    }
  }

  lemma PolledFile(t: Table, id: string, a: Answer, now: int)
    requires id in t.rows
    ensures var files := PollOne(t, id, a, now).files;
            var out := if a.Status? then Mirrored(t.rows[id].log, a.report, now, a.fetch).1 else [];
            && FileOf(files, id) == FileOf(t.files, id) + out
            && forall other :: other != id ==> FileOf(files, other) == FileOf(t.files, other)
  {
    hide Mirrored, PolledRow, LeaseOf;
  }

  /** `seen` live jobs have been handled before these; the clock has been read once for
      each but the first, and once at the start. */
  /** What the pass does with its first job: the table, the polls and the readings so far. */
  function Handled(t: Table, id: string, polled: nat, readings: nat, env: Env): (Table, nat, nat)
    requires id in t.rows
  {
    var r := t.rows[id];
    if r.box !in env.known then (Put(t, id, LostRow(r, "box-gone", env.now)), polled, readings)
    else if r.box !in env.pollable then (t, polled, readings)
    else if polled > 0 && env.clock(readings) - env.clock(0) >= env.budgetMs then (t, polled, readings + 1)
    else
      (PollOne(t, id, AnswerFor(env, id), env.now), polled + 1, if polled > 0 then readings + 1 else readings)
  }

  lemma PassUnfolds(t: Table, due: seq<string>, polled: nat, readings: nat, env: Env)
    requires AllOpen(t.rows, due) && due != []
    ensures var (u, p, n) := Handled(t, due[0], polled, readings, env);
            && AllOpen(u.rows, due[1..])
            && Pass(t, due, polled, readings, env) == Pass(u, due[1..], p, n, env)
  {
    hide PolledRow, LostRow, AnswerFor, PolledFiles, LeaseOf;
    OthersStayOpen(t, due, t.rows[due[0]]);
    OthersStayOpen(t, due, LostRow(t.rows[due[0]], "box-gone", env.now));
    OthersStayOpen(t, due, PolledRow(t.rows[due[0]], AnswerFor(env, due[0]), env.now));
  }

  lemma HandledSpares(t: Table, id: string, polled: nat, readings: nat, env: Env, other: string)
    requires id in t.rows && other != id
    ensures var u := Handled(t, id, polled, readings, env).0;
            && id in u.rows && u.rows == t.rows[id := u.rows[id]]
            && FileOf(u.files, other) == FileOf(t.files, other)
  {
    hide PolledRow, LostRow, AnswerFor, Mirrored, LeaseOf, FileOf;
    PolledFile(t, id, AnswerFor(env, id), env.now);
    assert t.rows == t.rows[id := t.rows[id]];
  }

  lemma HandledCounts(t: Table, id: string, polled: nat, readings: nat, env: Env, seen: nat)
    requires Open(t.rows, id) && (polled > 0 <==> seen > 0) && readings == if seen == 0 then 1 else seen
    ensures var (_, p, n) := Handled(t, id, polled, readings, env);
            var after := seen + if Live(t.rows, id, env) then 1 else 0;
            (p > 0 <==> after > 0) && n == if after == 0 then 1 else after
  {
    hide PollOne, LostRow, AnswerFor, Put;
  }

  /** `seen` live jobs have been handled before these; the clock has been read once for
      each but the first, and once at the start. */
  lemma {:induction false} PassExactlyFrom(t: Table, due: seq<string>, polled: nat, readings: nat, env: Env, seen: nat,
                                           k: nat)
    requires AllOpen(t.rows, due) && k < |due|
    requires (polled > 0 <==> seen > 0) && readings == if seen == 0 then 1 else seen
    ensures PassedAs(t, Pass(t, due, polled, readings, env), due[k], seen + LiveAmong(t.rows, due[..k], env), env)
    decreases |due|
  {
    hide LiveAmong, PassedAs, FileOf, Handled, Pass, Live;
    if k == 0 {
      HeadExactly(t, due, polled, readings, env, seen);
      NoneAmong(t.rows, due[..k], env);
    } else {
      var head := due[0];
      var (u, p, n) := Handled(t, head, polled, readings, env);
      PassUnfolds(t, due, polled, readings, env);
      HandledCounts(t, head, polled, readings, env, seen);
      HandledSpares(t, head, polled, readings, env, due[k]);
      LiveAmongStep(t.rows, due[..k], env);
      var rest := due[..k][1..];
      assert rest == due[1..][..k - 1] && due[1..][k - 1] == due[k] && due[..k][0] == head && head !in rest;
      var r := u.rows[head];
      LiveAmongSame(t.rows, head, r, rest, env);
      PassExactlyFrom(u, due[1..], p, n, env, seen + if Live(t.rows, head, env) then 1 else 0, k - 1);
      PassedSame(t, u, Pass(t, due, polled, readings, env), due[k], seen + LiveAmong(t.rows, due[..k], env), env);
    }
  }

  lemma NoneAmong(rows: map<string, Row>, ids: seq<string>, env: Env)
    requires ids == []
    ensures LiveAmong(rows, ids, env) == 0
  {
  }

  /** One pass over the due jobs: a job that is not due stays as it is; one whose box is
      gone from the fleet is lost with that reason, from now on; one whose box cannot be
      polled stays; and one with n live jobs in front of it is asked exactly if n is 0 or
      the n-th reading of the clock is within the budget. */
  lemma PassIsExact(t: Table, due: seq<string>, env: Env, id: string)
    requires AllOpen(t.rows, due) && id in t.rows
    ensures var u := Pass(t, due, 0, 1, env);
            && (id !in due ==> u.rows[id] == t.rows[id] && FileOf(u.files, id) == FileOf(t.files, id))
            && forall k :: 0 <= k < |due| && due[k] == id ==>
                 PassedAs(t, u, id, LiveAmong(t.rows, due[..k], env), env)
  {
    hide LiveAmong, PassedAs, FileOf;
    if id !in due {
      PassSpares(t, due, 0, 1, env, id);
    } else {
      forall k | 0 <= k < |due| && due[k] == id
        ensures PassedAs(t, Pass(t, due, 0, 1, env), id, LiveAmong(t.rows, due[..k], env), env)
      {
        PassExactlyFrom(t, due, 0, 1, env, 0, k);
      }
    }
  }

  /** A due list in order: the jobs never polled come first, then those polled longest ago;
      and of two that are equal in this the one created first. */
  lemma DueOrder(rows: map<string, Row>, due: seq<string>, i: nat, j: nat)
    requires IsDue(rows, due) && i < j < |due|
    ensures var a, b := rows[due[i]], rows[due[j]];
            && (a.lastPollAt.Some? ==> b.lastPollAt.Some? && a.lastPollAt.value <= b.lastPollAt.value)
            && (a.lastPollAt == b.lastPollAt ==> a.createdAt <= b.createdAt)
  {
  }

  // ----- what the columns of a row say -----

  /** A row has an end exactly when it is terminal, and a reason exactly when it is lost. */
  predicate RowOk(r: Row) {
    && (IsTerminal(r.state) <==> r.endedAt.Some?)
    && (r.state == JobState.Lost <==> r.lostReason.Some?)
  }

  ghost predicate RowsOk(t: Table) {
    forall id :: id in t.rows ==> RowOk(t.rows[id])
  }

  /** A poll closes a job exactly when the box says that it runs no more; the first known
      start stays; and a poll that read nothing moves the job to the back of the queue
      and does nothing else. */
  lemma PollClosesExactly(r: Row, a: Answer, now: int)
    requires RowOk(r) && !IsTerminal(r.state)
    ensures var u := PolledRow(r, a, now);
            && RowOk(u) && SameJob(r, u)
            && (a.Unreadable? ==> u == r.(lastPollAt := Some(now)))
            && (a.Status? ==> (IsTerminal(u.state) <==> a.boxState != "running")
                              && (IsTerminal(u.state) ==> u.endedAt == Some(now)))
            && (r.startedAt.Some? ==> u.startedAt == r.startedAt)
  {
    hide Mirrored;
  }

  /** The box's words for the states that it reports. */
  function Word(s: JobState): string
    requires s != Starting && s != JobState.Lost
  {
    match s
    case Running => "running"
    case Done => "done"
    case Failed => "failed"
    case TimedOut => "timeout"
    case Stopped => "stopped"
    case Crashloop => "crashloop"
  }

  predicate IsWord(word: string) {
    exists s: JobState :: s != Starting && s != JobState.Lost && word == Word(s)
  }

  /** A poll leaves the row in the state that the box names, for no reason of loss. What the
      box does not name so is a loss: of the reason it gives, of no record, or of the word
      itself. */
  lemma PollFollowsTheWord(r: Row, word: string, rc: Option<int>, started: Option<int>, report: JobLog.Status,
                           fetch: Fetch, now: int)
    requires RowOk(r) && !IsTerminal(r.state)
    ensures var u := PolledRow(r, Answer.Status(word, rc, started, report, fetch), now);
            && (forall s: JobState :: s != Starting && s != JobState.Lost && word == Word(s) ==>
                  u.state == s && u.lostReason == None)
            && (forall x: string :: word == "lost:" + x ==> u.state == JobState.Lost && u.lostReason == Some(x))
            && (word == "unknown" ==> u.state == JobState.Lost && u.lostReason == Some("no-record"))
            && (!IsWord(word) && word != "unknown" && !Text.StartsWith(word, "lost:") ==>
                  u.state == JobState.Lost && u.lostReason == Some(word))
  {
    hide Mirrored;
    forall x: string | word == "lost:" + x ensures Text.StartsWith(word, "lost:") && word[5..] == x && word[0] == 'l' {
    }
    assert Word(Running) == "running" && Word(Done) == "done" && Word(JobState.Failed) == "failed";
    assert Word(TimedOut) == "timeout" && Word(JobState.Stopped) == "stopped" && Word(Crashloop) == "crashloop";
  }

  /** The columns that a readable poll writes: what the box gives, and otherwise what was
      there; but the first start and the first end stay. */
  lemma PollWrites(r: Row, word: string, rc: Option<int>, started: Option<int>, report: JobLog.Status, fetch: Fetch,
                   now: int)
    ensures var u := PolledRow(r, Answer.Status(word, rc, started, report, fetch), now);
            && u.rc == (if rc.Some? then rc else r.rc) && u.lastPollAt == Some(now)
            && u.startedAt == (if r.startedAt.Some? then r.startedAt else started)
            && u.endedAt == (if r.endedAt.None? && IsTerminal(u.state) then Some(now) else r.endedAt)
            && u.logBytes == report.logBytes && u.log == Mirrored(r.log, report, now, fetch).0
  {
    hide Mirrored;
  }

  /** Creating a job on a box that has an open one adds no row. Otherwise the row is running
      from now if the box took the job, and lost from now if it did not: as a busy slot for
      code 75, as a failed start for any other code and for none. */
  lemma CreateWrites(t: Table, id: string, box: string, lease: string, owned: bool, startRc: Option<int>, now: int)
    requires id !in t.rows
    ensures var u := Create(t, id, box, lease, owned, startRc, now);
            var taken := startRc == Some(0);
            var why := if startRc == Some(75) then "box-slot-busy" else "start-failed";
            && u.files == t.files
            && u.rows == if Occupied(t, box) then t.rows
                         else
                           t.rows[id := Row(box, Some(lease), owned, now, if taken then Running else JobState.Lost,
                                            None, if taken then Some(now) else None, if taken then None else Some(now),
                                            Some(now), 0, FRESH, if taken then None else Some(why))]
  {
  }

  /** Stopping an open job whose box obeys makes it stopped, with code 143 and from now; any
      other stop changes nothing. */
  lemma StopWrites(t: Table, id: string, rc: Option<int>, now: int)
    requires RowsOk(t)
    ensures var u := Stop(t, id, rc, now);
            && u.files == t.files
            && (Open(t.rows, id) && rc == Some(0) ==>
                  u.rows == t.rows[id := t.rows[id].(state := JobState.Stopped, rc := Some(143), endedAt := Some(now),
                                                     lastPollAt := Some(now))])
            && (!Open(t.rows, id) || rc != Some(0) ==> u == t)
  {
    hide LeaseOf;
  }

  /** Retention counts from the end of a job: it drops the row, and its log, exactly of a
      job that ended before the cutoff. */
  lemma PrunesByTheEnd(t: Table, days: nat, at: int, id: string)
    requires RowsOk(t) && id in t.rows
    ensures var u := Prune(t, days, at);
            var past := days > 0 && IsTerminal(t.rows[id].state) && t.rows[id].endedAt.value + days * 86400 < at;
            && (id in u.rows <==> !past) && (id in u.files <==> id in t.files && !past)
  {
    assert RowOk(t.rows[id]);
  }

  lemma PutKeepsRowsOk(t: Table, id: string, r: Row)
    requires RowsOk(t) && id in t.rows && RowOk(r)
    ensures RowsOk(Put(t, id, r))
  {
    hide RowOk, LeaseOf;
  }

  lemma {:induction false} PassKeepsRowsOk(t: Table, due: seq<string>, polled: nat, readings: nat, env: Env)
    requires RowsOk(t) && AllOpen(t.rows, due)
    ensures RowsOk(Pass(t, due, polled, readings, env))
    decreases |due|
  {
    if due != [] {
      var id := due[0];
      var r := t.rows[id];
      var a := AnswerFor(env, id);
      var lost, asked := LostRow(r, "box-gone", env.now), PolledRow(r, a, env.now);
      PollClosesExactly(r, a, env.now);
      OthersStayOpen(t, due, lost);
      OthersStayOpen(t, due, asked);
      assert RowOk(lost);
      hide RowOk, PolledRow, LostRow, AnswerFor, AllOpen, PolledFiles, LeaseOf, RowsOk;
      PutKeepsRowsOk(t, id, lost);
      PutKeepsRowsOk(t, id, asked);
      SameRowsOk(Put(t, id, asked), PollOne(t, id, a, env.now));
      if r.box !in env.known {
        PassKeepsRowsOk(Put(t, id, lost), due[1..], polled, readings, env);
      } else if r.box !in env.pollable {
        PassKeepsRowsOk(t, due[1..], polled, readings, env);
      } else if polled > 0 && env.clock(readings) - env.clock(0) >= env.budgetMs {
        PassKeepsRowsOk(t, due[1..], polled, readings + 1, env);
      } else {
        PassKeepsRowsOk(PollOne(t, id, a, env.now), due[1..], polled + 1,
                        if polled > 0 then readings + 1 else readings, env);
      }
    }
  }

  lemma SameRowsOk(t: Table, u: Table)
    requires RowsOk(t) && u.rows == t.rows
    ensures RowsOk(u)
  {
  }

  lemma StepKeepsRowsOk(t: Table, e: Event)
    requires RowsOk(t) && Allowed(t, e)
    ensures RowsOk(After(t, e))
  {
    match e
    case Creating(id, box, lease, owned, rc, at) =>
      CreateShape(t, id, box, lease, owned, rc, at);
      var u := Create(t, id, box, lease, owned, rc, at);
      assert !Occupied(t, box) ==> RowOk(u.rows[id]) by { hide Occupied, LeaseOf; }
    case Ticking(due, env) =>
      assert AllOpen(t.rows, due);
      hide RowsOk, Pass, AllOpen, IsDue;
      PassKeepsRowsOk(t, due, 0, 1, env);
    case Refreshing(id, a, at) =>
      if Open(t.rows, id) {
        PollClosesExactly(t.rows[id], a, at);
        hide RowOk, PolledRow, PolledFiles;
        PutKeepsRowsOk(t, id, PolledRow(t.rows[id], a, at));
      }
    case Stopping(id, rc, at) =>
      if Open(t.rows, id) && rc == Some(0) {
        var r := Updated(t.rows[id], Update(JobState.Stopped, Some(143), None, Some(at), at, None, None, None));
        assert RowOk(r);
        hide RowOk;
        PutKeepsRowsOk(t, id, r);
      }
    case Pruning(days, at) =>
      hide RowOk;
  }

  /** In every run of handlers a row has an end exactly when it is terminal, and a reason
      exactly when it is lost. */
  lemma {:induction false} RunKeepsRowsOk(t: Table, es: seq<Event>)
    requires RowsOk(t) && Runs(t, es)
    ensures RowsOk(Final(t, es))
    decreases |es|
  {
    if es != [] {
      StepKeepsRowsOk(t, es[0]);
      hide After, Allowed, RowsOk;
      RunKeepsRowsOk(After(t, es[0]), es[1..]);
    }
  }

  // ----- the same operations in place -----

  /** The store: `table` is the database, `sink` the mirror directory. */
  class Store {
    var rows: map<string, Row>
    var released: set<string>
    ghost var acquired: set<string>
    const sink: LogSink

    constructor ()
      ensures Contents() == Table(map[], {}, {}, map[]) && fresh(sink)
    {
      rows := map[];
      released := {};
      acquired := {};
      sink := new LogSink();
    }

    ghost function Contents(): Table
      reads this, sink
    {
      Table(rows, released, acquired, sink.files)
    }

    /** `UPDATE ... WHERE job_id = ?`, and the housekeeping of a job that ends. */
    method Replace(id: string, r: Row)
      requires id in rows
      modifies this
      ensures Contents() == Put(old(Contents()), id, r)
    {
      var was := rows[id];
      rows := rows[id := r];
      if IsTerminal(r.state) && !IsTerminal(was.state) {
        if r.lease.Some? && r.owned {
          released := released + {r.lease.value};
        }
      }
      assert old(released) + {} == old(released);
    }

    method PollJob(id: string, a: Answer, now: int)
      requires id in rows
      modifies this, sink
      ensures Contents() == PollOne(old(Contents()), id, a, now)
    {
      var job := rows[id];
      match a {
        case Unreadable =>
          Replace(id, Updated(job, Update(job.state, None, None, None, now, None, None, None)));
        case Status(boxState, rc, started, report, fetch) =>
          var (state, reason) := FromBox(boxState);
          var m := Mirror(sink, id, job.log, report, now, fetch);
          var u := Update(state, rc, Coalesce(job.startedAt, started),
                          if IsTerminal(state) then Coalesce(job.endedAt, Some(now)) else None,
                          now, Some(report.logBytes), Some(m), reason);
          Replace(id, Updated(job, u));
      }
    }

    /** `handleJobCreate` once box and lease are settled: the row first, then the box.
        `asked` is the table at the moment the box is asked to start the job. */
    method CreateJob(id: string, box: string, lease: string, owned: bool, startRc: Option<int>, now: int)
      returns (ghost asked: Option<Table>)
      requires id !in rows
      modifies this
      ensures Contents() == Create(old(Contents()), id, box, lease, owned, startRc, now)
      ensures asked.None? <==> Occupied(old(Contents()), box)
      ensures asked.Some? ==>
                var row := Row(box, Some(lease), owned, now, Starting, None, None, None, None, 0, FRESH, None);
                asked.value.rows == old(rows)[id := row]
    {
      asked := None;
      if owned {
        acquired := acquired + {lease};
      }
      if exists other | other in rows :: Open(rows, other) && rows[other].box == box {
        if owned {
          released := released + {lease};
        }
        return;
      }
      var row := Row(box, Some(lease), owned, now, Starting, None, None, None, None, 0, FRESH, None);
      rows := rows[id := row];
      asked := Some(Contents());
      if startRc == Some(0) {
        Replace(id, Updated(row, Update(Running, None, Some(now), None, now, None, None, None)));
      } else {
        Replace(id, Updated(row, Update(JobState.Lost, None, None, Some(now), now, None, None,
                                        Some(if startRc == Some(75) then "box-slot-busy" else "start-failed"))));
      }
    }

    method RefreshJob(id: string, a: Answer, now: int)
      modifies this, sink
      ensures Contents() == Refresh(old(Contents()), id, a, now)
    {
      if id in rows && !IsTerminal(rows[id].state) {
        PollJob(id, a, now);
      }
    }

    method StopJob(id: string, rc: Option<int>, now: int)
      modifies this
      ensures Contents() == Stop(old(Contents()), id, rc, now)
    {
      if id in rows && !IsTerminal(rows[id].state) && rc == Some(0) {
        Replace(id, Updated(rows[id], Update(JobState.Stopped, Some(143), None, Some(now), now, None, None, None)));
      }
    }

    /** The open jobs in due order. */
    method DueJobs() returns (due: seq<string>)
      ensures IsDue(rows, due)
    {
      due := [];
      var rest := set id | id in rows && !IsTerminal(rows[id].state);
      while rest != {}
        invariant forall id :: Open(rows, id) <==> id in rest || id in due
        invariant forall id :: id in rest ==> id !in due
        invariant forall i :: 0 <= i < |due| ==> Open(rows, due[i])
        invariant forall i, j :: 0 <= i < j < |due| ==> due[i] != due[j] && NoLater(rows[due[i]], rows[due[j]])
        decreases |rest|
      {
        var id :| id in rest;
        var at := 0;
        while at < |due| && NoLater(rows[due[at]], rows[id])
          invariant at <= |due|
          invariant forall i :: 0 <= i < at ==> NoLater(rows[due[i]], rows[id])
        {
          at := at + 1;
        }
        Insert(rows, due, id, at);
        due := due[..at] + [id] + due[at..];
        rest := rest - {id};
      }
    }

    /** The poll pass of one tick. */
    method Poll(env: Env)
      modifies this, sink
      ensures exists due :: IsDue(old(rows), due) && Contents() == Pass(old(Contents()), due, 0, 1, env)
    {
      var due := DueJobs();
      ghost var start := Contents();
      var polled, readings := 0, 1;
      for i := 0 to |due|
        invariant rows.Keys == start.rows.Keys
        invariant Pass(Contents(), due[i..], polled, readings, env) == Pass(start, due, 0, 1, env)
      {
        var id := due[i];
        var job := rows[id];
        assert due[i..][0] == id && due[i..][1..] == due[i + 1..];
        if job.box !in env.known {
          Replace(id, LostRow(job, "box-gone", env.now));
          continue;
        }
        if job.box !in env.pollable {
          continue;
        }
        if polled > 0 {
          var late := env.clock(readings) - env.clock(0) >= env.budgetMs;
          readings := readings + 1;
          if late {
            continue;
          }
        }
        polled := polled + 1;
        PollJob(id, if id in env.answers then env.answers[id] else Unreadable, env.now);
      }
      assert due[|due|..] == [];
    }

    method RemoveLogs(doomed: set<string>, ghost first: Table, ghost before: seq<Table>)
      returns (ghost states: seq<Table>)
      requires Crashable(first, Contents(), before)
      modifies sink
      ensures sink.files == old(sink.files) - doomed && Crashable(first, Contents(), states)
    {
      hide Crashable;
      states := before;
      var left := doomed;
      while left != {}
        invariant left <= doomed && sink.files == old(sink.files) - (doomed - left)
        invariant Crashable(first, Contents(), states)
        decreases |left|
      {
        var id :| id in left;
        ghost var was := Contents();
        sink.Remove(id);
        left := left - {id};
        LogGone(first, was, states, id);
        states := states + [Contents()];
      }
    }

    method DeleteRows(doomed: set<string>, ghost first: Table, ghost before: seq<Table>)
      returns (ghost states: seq<Table>)
      requires Crashable(first, Contents(), before) && sink.files.Keys !! doomed
      modifies this
      ensures rows == old(rows) - doomed && released == old(released) && acquired == old(acquired)
      ensures Crashable(first, Contents(), states)
    {
      hide Crashable;
      states := before;
      var left := doomed;
      while left != {}
        invariant left <= doomed && rows == old(rows) - (doomed - left)
        invariant released == old(released) && acquired == old(acquired)
        invariant Crashable(first, Contents(), states)
        decreases |left|
      {
        var id :| id in left;
        ghost var was := Contents();
        rows := rows - {id};
        left := left - {id};
        RowGone(first, was, states, id);
        states := states + [Contents()];
      }
    }

    /** Retention: logs first, then rows. `states` is the store after each single
        deletion: wherever a crash comes, every file still has its row. */
    method PruneJobs(days: nat, at: int) returns (deleted: nat, ghost states: seq<Table>)
      requires FilesHaveRows(Contents())
      modifies this, sink
      ensures Contents() == Prune(old(Contents()), days, at)
      ensures deleted == if days == 0 then 0 else |DoomedIds(old(rows), at - days * 86400)|
      ensures StepByStep(old(Contents()), Contents(), states)
      ensures forall k :: 0 <= k < |states| ==> FilesHaveRows(states[k])
    {
      states := [Contents()];
      if days == 0 {
        return 0, states;
      }
      var doomed := set id | id in rows && Doomed(rows[id], at - days * 86400);
      states := RemoveLogs(doomed, Contents(), states);
      states := DeleteRows(doomed, old(Contents()), states);
      deleted := |doomed|;
    }
  }

  ghost predicate FilesHaveRows(t: Table) {
    forall id :: id in t.files ==> id in t.rows
  }

  /** One log or one row is gone. */
  ghost predicate Deleted(t: Table, u: Table, id: string) {
    u == t.(files := t.files - {id}) || u == t.(rows := t.rows - {id})
  }

  ghost predicate OneDeleted(t: Table, u: Table) {
    exists id :: Deleted(t, u, id)
  }

  /** From the first table to the last by single deletions. */
  ghost predicate StepByStep(first: Table, last: Table, states: seq<Table>) {
    && states != [] && states[0] == first && states[|states| - 1] == last
    && forall k :: 0 <= k < |states| - 1 ==> OneDeleted(states[k], states[k + 1])
  }

  ghost predicate Crashable(first: Table, last: Table, states: seq<Table>) {
    StepByStep(first, last, states) && forall k :: 0 <= k < |states| ==> FilesHaveRows(states[k])
  }

  lemma LogGone(first: Table, was: Table, states: seq<Table>, id: string)
    requires Crashable(first, was, states)
    ensures var now := was.(files := was.files - {id}); Crashable(first, now, states + [now])
  {
    var now := was.(files := was.files - {id});
    assert FilesHaveRows(states[|states| - 1]);
    hide StepByStep;
    OneMoreStep(first, was, now, states, id);
  }

  lemma RowGone(first: Table, was: Table, states: seq<Table>, id: string)
    requires Crashable(first, was, states) && id !in was.files
    ensures var now := was.(rows := was.rows - {id}); Crashable(first, now, states + [now])
  {
    var now := was.(rows := was.rows - {id});
    assert FilesHaveRows(states[|states| - 1]);
    hide StepByStep;
    OneMoreStep(first, was, now, states, id);
  }

  lemma OneMoreStep(first: Table, was: Table, now: Table, states: seq<Table>, id: string)
    requires StepByStep(first, was, states) && Deleted(was, now, id)
    ensures StepByStep(first, now, states + [now])
  {
    assert OneDeleted(was, now);
    hide Deleted, OneDeleted;
  }

  lemma Insert(rows: map<string, Row>, due: seq<string>, id: string, at: nat)
    requires forall i :: 0 <= i < |due| ==> due[i] in rows
    requires forall i, j :: 0 <= i < j < |due| ==> due[i] != due[j] && NoLater(rows[due[i]], rows[due[j]])
    requires id in rows && id !in due && at <= |due|
    requires forall i :: 0 <= i < at ==> NoLater(rows[due[i]], rows[id])
    requires at < |due| ==> !NoLater(rows[due[at]], rows[id])
    ensures var now := due[..at] + [id] + due[at..];
            && (forall x :: x in now <==> x in due || x == id)
            && (forall i :: 0 <= i < |now| ==> now[i] in rows)
            && (forall i, j :: 0 <= i < j < |now| ==> now[i] != now[j] && NoLater(rows[now[i]], rows[now[j]]))
  {
    var now := due[..at] + [id] + due[at..];
    assert forall x :: x in due <==> x in due[..at] || x in due[at..] by { assert due == due[..at] + due[at..]; }
    forall i | at <= i < |due| ensures NoLater(rows[id], rows[due[i]]) {
      assert NoLater(rows[due[at]], rows[due[i]]) || i == at;
    }
  }
}
