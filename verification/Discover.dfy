/** The discovery scheduler of one tick (fleet/src/reconcile/discover.ts): an adopt
    pass before the membership loop and a repair pass after it share one mutation
    slot, one time budget and one backoff ledger. The passes are functions on the
    run's state; the class at the end performs them in place. */
module Discover {
  import opened Wrappers
  import opened Text

  const BUDGET_MS := 60000
  const ADOPT_MS := 30000
  const REPAIR_MS := BUDGET_MS - ADOPT_MS
  const PROBE_MS := 20000
  const CAP_TICKS := 12
  const PRUNE_TICKS := 288
  const MAX_RECORDS := 64

  // ----- the backoff ledger -----

  datatype Record = Record(name: string, failures: nat, reason: string, lastTick: int)

  function Pow2(n: nat): nat {
    if n == 0 then 1 else 2 * Pow2(n - 1)
  }

  function BackoffTicks(failures: nat): nat {
    if failures == 0 then 0
    else
      var exp := Pow2(if failures - 1 < 30 then failures - 1 else 30);
      if exp < CAP_TICKS then exp else CAP_TICKS
  }

  function Find(l: seq<Record>, name: string): Option<Record> {
    if l == [] then None else if l[0].name == name then Some(l[0]) else Find(l[1..], name)
  }

  /** The failures of a name still inside its window. */
  function InBackoff(l: seq<Record>, name: string, tick: int): Option<nat> {
    match Find(l, name)
    case None => None
    case Some(r) => if r.failures == 0 || tick - r.lastTick >= BackoffTicks(r.failures) then None else Some(r.failures)
  }

  function Failed(l: seq<Record>, name: string, reason: string, tick: int): seq<Record> {
    if l == [] then [Record(name, 1, reason, tick)]
    else if l[0].name == name then [Record(name, l[0].failures + 1, reason, tick)] + l[1..]
    else [l[0]] + Failed(l[1..], name, reason, tick)
  }

  function Cleared(l: seq<Record>, name: string): seq<Record> {
    if l == [] then []
    else if l[0].name == name then Cleared(l[1..], name)
    else [l[0]] + Cleared(l[1..], name)
  }

  // ----- the tick's surroundings -----

  datatype Probe = Probe(reachable: bool, hostname: string, boxup: bool, mismatch: bool, ms: nat)

  datatype Enrolment = Enrolment(rc: int, timeoutPoint: Option<string>, ms: nat)

  datatype Findings = Findings(ok: bool, coherent: bool, ms: nat)

  /** `repair_pending_runs`: consecutive incoherent ticks, and the tick that wrote it. */
  datatype Marker = Marker(runs: nat, tick: int)

  type Markers = map<string, Marker>

  /** One tick: its number, its switches, who is a member, what the passes would
      find. `again` is a second probe; `before` and `after` are the enrolling rows
      as the two passes read them. */
  datatype Tick = Tick(
    tick: int, readonly: bool, apply: bool, apiToken: bool, password: bool,
    membership: seq<string>, before: seq<string>, after: seq<string>,
    listMs: nat, candidates: seq<string>, noted: seq<(string, string)>,
    probe: string -> Probe, again: string -> Probe, enrol: string -> Enrolment, inspect: string -> Findings)

  datatype Side = Adopt | Repair | Shared

  /** `calls` are the boxes `deps.adopt` was called for. */
  datatype Run = Run(
    total: nat, adopt: nat, repair: nat, ledger: seq<Record>, slotUsed: bool,
    adopted: nat, repaired: nat, skipped: seq<(string, string)>, calls: seq<string>)

  function Fresh(ledger: seq<Record>): Run {
    Run(0, 0, 0, ledger, false, 0, 0, [], [])
  }

  predicate CanStart(r: Run, side: Side, ceilingMs: nat) {
    && r.total + ceilingMs <= BUDGET_MS
    && (if side.Adopt? then r.adopt + ceilingMs <= ADOPT_MS else r.repair + ceilingMs <= REPAIR_MS)
  }

  function Spent(r: Run, side: Side, ms: nat): Run {
    match side
    case Adopt => r.(total := r.total + ms, adopt := r.adopt + ms)
    case Repair => r.(total := r.total + ms, repair := r.repair + ms)
    case Shared => r.(total := r.total + ms)
  }

  function Skip(r: Run, name: string, reason: string): Run {
    r.(skipped := r.skipped + [(name, reason)])
  }

  /** A failed probe: counted, and the pass goes on. */
  function Unreachable(r: Run, name: string, tick: int): Run {
    Skip(r.(ledger := Failed(r.ledger, name, "unreachable", tick)), name, "unreachable")
  }

  function SkipAll(r: Run, names: seq<string>, reason: string): Run
    decreases |names|
  {
    if names == [] then r else SkipAll(Skip(r, names[0], reason), names[1..], reason)
  }

  function Reason(a: Enrolment): string {
    if a.timeoutPoint.Some? then "timeout-" + a.timeoutPoint.value
        else "enroll-rc" + (if a.rc < 0 then "-" + Decimal(-a.rc) else Decimal(a.rc))
  }

  /** `deps.adopt` for one box: the slot is spent whatever it returns. */
  function Enrolled(r: Run, name: string, a: Enrolment, tick: int, repair: bool): Run {
    var u := r.(calls := r.calls + [name], slotUsed := true);
    if a.rc == 0 then
      var v := u.(ledger := Cleared(u.ledger, name));
      if repair then v.(repaired := v.repaired + 1) else v.(adopted := v.adopted + 1)
    else Skip(u.(ledger := Failed(u.ledger, name, Reason(a), tick)), name, Reason(a))
  }

  // ----- the adopt pass -----

  /** A member whose marker says a repair may be due this tick. */
  predicate RepairPending(t: Tick, m: Markers) {
    exists i | 0 <= i < |t.membership| :: Pending(t.membership[i], m, t.tick)
  }

  predicate Pending(box: string, m: Markers, tick: int) {
    box in m && m[box].runs >= 1 && m[box].tick == tick - 1
  }

  predicate EnrolPending(rows: seq<string>, l: seq<Record>, tick: int) {
    exists i | 0 <= i < |rows| :: InBackoff(l, rows[i], tick).None?
  }

  /** Probe a candidate, once more if its host key is another's. */
  function Probed(r: Run, t: Tick, name: string): (Run, Probe) {
    var p := t.probe(name);
    var u := Spent(r, Adopt, p.ms);
    if !p.reachable && p.mismatch then (Spent(u, Adopt, t.again(name).ms), t.again(name)) else (u, p)
  }

  function AdoptLoop(r: Run, t: Tick, names: seq<string>): Run
    decreases |names|
  {
    if names == [] then r
    else
      var name := names[0];
      if InBackoff(r.ledger, name, t.tick).Some? then AdoptLoop(Skip(r, name, "backoff"), t, names[1..])
      else if !CanStart(r, Adopt, PROBE_MS) then r
      else
        var (u, p) := Probed(r, t, name);
        if !p.reachable then
          AdoptLoop(Unreachable(u, name, t.tick), t, names[1..])
        else if p.hostname != "" && p.hostname != name then AdoptLoop(Skip(u, name, "name-mismatch"), t, names[1..])
        else if !p.boxup then AdoptLoop(Skip(u, name, "boxup-missing"), t, names[1..])
        else if !t.apply then AdoptLoop(u, t, names[1..])
        else if u.slotUsed then u
        else Enrolled(u, name, t.enrol(name), t.tick, false)
  }

  function AdoptPass(r: Run, t: Tick, m: Markers): Run {
    if t.readonly then r
    else
      var u := Spent(r, Shared, t.listMs).(skipped := r.skipped + t.noted);
      if t.candidates == [] then u
      else if !t.apiToken then SkipAll(u, t.candidates, "no-api-token")
      else if !t.password then SkipAll(u, t.candidates, "no-box-password")
      else if RepairPending(t, m) || EnrolPending(t.before, u.ledger, t.tick) then u
      else AdoptLoop(u, t, t.candidates)
  }

  // ----- the repair pass -----

  predicate RepairDue(box: string, m: Markers, tick: int) {
    box in m && m[box].tick == tick && m[box].runs >= 2
  }

  datatype Item = Item(name: string, resume: bool)

  function RepairItems(members: seq<string>, m: Markers, tick: int): seq<Item> {
    if members == [] then []
    else (if RepairDue(members[0], m, tick) then [Item(members[0], false)] else []) + RepairItems(members[1..], m, tick)
  }

  function ResumeItems(rows: seq<string>, l: seq<Record>, tick: int): seq<Item> {
    if rows == [] then []
    else (if InBackoff(l, rows[0], tick).None? then [Item(rows[0], true)] else []) + ResumeItems(rows[1..], l, tick)
  }

  /** Even ticks repair first, odd ticks resume first. */
  function Order(repairs: seq<Item>, resumes: seq<Item>, tick: int): seq<Item> {
    if tick % 2 == 0 then repairs + resumes else resumes + repairs
  }

  function Names(items: seq<Item>): seq<string> {
    if items == [] then [] else [items[0].name] + Names(items[1..])
  }

  function RepairLoop(r: Run, t: Tick, items: seq<Item>): Run
    decreases |items|
  {
    if items == [] || r.slotUsed then r
    else
      var box := items[0].name;
      if InBackoff(r.ledger, box, t.tick).Some? then RepairLoop(Skip(r, box, "backoff"), t, items[1..])
      else if !CanStart(r, Repair, PROBE_MS) then r
      else if items[0].resume then
        if !t.apply then RepairLoop(r, t, items[1..])
        else Enrolled(Spent(r, Repair, t.enrol(box).ms), box, t.enrol(box), t.tick, false)
      else
        var f := t.inspect(box);
        var u := Spent(r, Repair, f.ms);
        if !f.ok then
          RepairLoop(Unreachable(u, box, t.tick), t, items[1..])
        else if f.coherent || !t.apply then RepairLoop(u, t, items[1..])
        else Enrolled(u, box, t.enrol(box), t.tick, true)
  }

  function DueItems(r: Run, t: Tick, m: Markers): (seq<Item>, seq<Item>) {
    (RepairItems(t.membership, m, t.tick), ResumeItems(t.after, r.ledger, t.tick))
  }

  function RepairPass(r: Run, t: Tick, m: Markers): Run {
    if t.readonly then r
    else
      var (repairs, resumes) := DueItems(r, t, m);
      if repairs == [] && resumes == [] then r
      else if !t.apiToken then SkipAll(r, Names(repairs + resumes), "no-api-token")
      else if !t.password then SkipAll(r, Names(repairs + resumes), "no-box-password")
      else RepairLoop(r, t, Order(repairs, resumes, t.tick))
  }

  /** Both passes of a tick; the membership loop stamps the markers in between. */
  function BothPasses(ledger: seq<Record>, t: Tick, m: Markers, stamped: Markers): Run {
    RepairPass(AdoptPass(Fresh(ledger), t, m), t, stamped)
  }

  // ----- one mutation per tick -----

  /** The slot is spent exactly by the one call there may be. */
  ghost predicate OneCall(r: Run) {
    |r.calls| <= 1 && (r.slotUsed <==> r.calls != [])
  }

  lemma {:induction false} SkipAllKeeps(r: Run, names: seq<string>, reason: string)
    ensures var u := SkipAll(r, names, reason);
            u == r.(skipped := u.skipped)
    decreases |names|
  {
    if names != [] {
      SkipAllKeeps(Skip(r, names[0], reason), names[1..], reason);
    }
  }

  lemma {:induction false} AdoptLoopCallsOnce(r: Run, t: Tick, names: seq<string>)
    requires OneCall(r)
    ensures OneCall(AdoptLoop(r, t, names))
    ensures !t.apply ==> AdoptLoop(r, t, names).calls == r.calls
    decreases |names|
  {
    hide InBackoff, Failed, Cleared, CanStart, Reason;
    if names != [] {
      var (u, p) := Probed(r, t, names[0]);
      AdoptLoopCallsOnce(Skip(r, names[0], "backoff"), t, names[1..]);
      AdoptLoopCallsOnce(Unreachable(u, names[0], t.tick), t, names[1..]);
      AdoptLoopCallsOnce(Skip(u, names[0], "name-mismatch"), t, names[1..]);
      AdoptLoopCallsOnce(Skip(u, names[0], "boxup-missing"), t, names[1..]);
      AdoptLoopCallsOnce(u, t, names[1..]);
    }
  }

  lemma {:induction false} RepairLoopCallsOnce(r: Run, t: Tick, items: seq<Item>)
    requires OneCall(r)
    ensures OneCall(RepairLoop(r, t, items))
    ensures !t.apply ==> RepairLoop(r, t, items).calls == r.calls
    decreases |items|
  {
    hide InBackoff, Failed, Cleared, CanStart, Reason;
    if items != [] {
      var box := items[0].name;
      var u := Spent(r, Repair, t.inspect(box).ms);
      RepairLoopCallsOnce(Skip(r, box, "backoff"), t, items[1..]);
      RepairLoopCallsOnce(r, t, items[1..]);
      RepairLoopCallsOnce(Unreachable(u, box, t.tick), t, items[1..]);
      RepairLoopCallsOnce(u, t, items[1..]);
    }
  }

  /** Across both passes there is at most one mutation, and none on a read-only or
      dry-run tick or without the token and the password. */
  lemma OneMutationPerTick(ledger: seq<Record>, t: Tick, m: Markers, stamped: Markers)
    ensures |BothPasses(ledger, t, m, stamped).calls| <= 1
    ensures t.readonly || !t.apply || !t.apiToken || !t.password ==> BothPasses(ledger, t, m, stamped).calls == []
  {
    var u := Spent(Fresh(ledger), Shared, t.listMs).(skipped := t.noted);
    assert Fresh(ledger).skipped + t.noted == t.noted;
    hide AdoptLoop, RepairLoop, RepairPending, EnrolPending, SkipAll, RepairItems, ResumeItems, Order;
    SkipAllKeeps(u, t.candidates, "no-api-token");
    SkipAllKeeps(u, t.candidates, "no-box-password");
    AdoptLoopCallsOnce(u, t, t.candidates);
    var a := AdoptPass(Fresh(ledger), t, m);
    assert OneCall(a);
    var (repairs, resumes) := DueItems(a, t, stamped);
    SkipAllKeeps(a, Names(repairs + resumes), "no-api-token");
    SkipAllKeeps(a, Names(repairs + resumes), "no-box-password");
    RepairLoopCallsOnce(a, t, Order(repairs, resumes, t.tick));
  }

  // ----- who may be mutated -----

  predicate Fit(p: Probe, name: string) {
    p.reachable && (p.hostname == "" || p.hostname == name) && p.boxup
  }

  /** A candidate that adopt may call: out of its window, and fit as last probed. */
  predicate Adoptable(t: Tick, l: seq<Record>, name: string) {
    && t.apply && InBackoff(l, name, t.tick).None?
    && Fit(LastProbe(t, name), name)
  }

  /** What adopt goes by: the second probe if the first met a foreign host key. */
  function LastProbe(t: Tick, name: string): Probe {
    if !t.probe(name).reachable && t.probe(name).mismatch then t.again(name) else t.probe(name)
  }

  /** An item that repair may call: out of its window, and a row to resume or a member
      whose artefacts were found broken. */
  predicate Workable(t: Tick, l: seq<Record>, item: Item, name: string) {
    && item.name == name && t.apply && InBackoff(l, name, t.tick).None?
    && (item.resume || (t.inspect(name).ok && !t.inspect(name).coherent))
  }

  lemma StillInBackoff(l: seq<Record>, failed: string, tick: int, name: string)
    requires InBackoff(l, failed, tick).None? && InBackoff(l, name, tick).Some?
    ensures InBackoff(Failed(l, failed, "unreachable", tick), name, tick).Some?
  {
    FindFailed(l, failed, "unreachable", tick, name);
    hide Failed, Find, BackoffTicks;
  }

  /** The enrolments among these calls that succeeded. */
  function Successes(t: Tick, calls: seq<string>): nat {
    if calls == [] then 0 else (if t.enrol(calls[0]).rc == 0 then 1 else 0) + Successes(t, calls[1..])
  }

  lemma {:induction false} AdoptLoopIsFit(r: Run, t: Tick, names: seq<string>)
    requires r.calls == []
    ensures var u := AdoptLoop(r, t, names);
            && (u.calls == [] || (|u.calls| == 1 && u.calls[0] in names && Adoptable(t, r.ledger, u.calls[0])))
            && u.repaired == r.repaired && u.adopted == r.adopted + Successes(t, u.calls)
    decreases |names|
  {
    hide InBackoff, Failed, Cleared, CanStart, Reason;
    if names != [] {
      var name := names[0];
      var (u, p) := Probed(r, t, name);
      AdoptLoopIsFit(Skip(r, name, "backoff"), t, names[1..]);
      AdoptLoopIsFit(Skip(u, name, "name-mismatch"), t, names[1..]);
      AdoptLoopIsFit(Skip(u, name, "boxup-missing"), t, names[1..]);
      AdoptLoopIsFit(u, t, names[1..]);
      AdoptLoopIsFit(Unreachable(u, name, t.tick), t, names[1..]);
      var calls := AdoptLoop(r, t, names).calls;
      if calls != [] && InBackoff(r.ledger, name, t.tick).None? && InBackoff(r.ledger, calls[0], t.tick).Some? {
        StillInBackoff(r.ledger, name, t.tick, calls[0]);
      }
    }
  }

  /** What a repair loop from r to u may have called. */
  ghost predicate RepairFits(r: Run, u: Run, t: Tick, items: seq<Item>) {
    && u.adopted >= r.adopted && u.repaired >= r.repaired
    && u.adopted + u.repaired == r.adopted + r.repaired + Successes(t, u.calls)
    && (u.calls == []
        || (|u.calls| == 1
            && exists i :: i in items && Workable(t, r.ledger, i, u.calls[0])
                           && if i.resume then u.repaired == r.repaired else u.adopted == r.adopted))
  }

  /** The rest of the loop may start from v: r, or r with the first box's failure. */
  lemma RestFits(r: Run, v: Run, u: Run, t: Tick, items: seq<Item>)
    requires items != [] && RepairFits(v, u, t, items[1..]) && v.adopted == r.adopted && v.repaired == r.repaired
    requires v.ledger == r.ledger
             || (InBackoff(r.ledger, items[0].name, t.tick).None?
                 && v.ledger == Failed(r.ledger, items[0].name, "unreachable", t.tick))
    ensures RepairFits(r, u, t, items)
  {
    hide InBackoff, Failed, Successes;
    if u.calls != [] {
      var i :| i in items[1..] && Workable(t, v.ledger, i, u.calls[0])
               && if i.resume then u.repaired == r.repaired else u.adopted == r.adopted;
      if v.ledger != r.ledger && InBackoff(r.ledger, u.calls[0], t.tick).Some? {
        StillInBackoff(r.ledger, items[0].name, t.tick, u.calls[0]);
      }
      assert i in items && Workable(t, r.ledger, i, u.calls[0]);
    }
  }

  lemma {:induction false} RepairLoopIsFit(r: Run, t: Tick, items: seq<Item>)
    requires r.calls == []
    ensures RepairFits(r, RepairLoop(r, t, items), t, items)
    decreases |items|
  {
    hide InBackoff, Failed, Cleared, CanStart, Reason;
    if items != [] && !r.slotUsed {
      var box := items[0].name;
      var end := RepairLoop(r, t, items);
      var v := Spent(r, Repair, t.inspect(box).ms);
      assert items[0] in items;
      if InBackoff(r.ledger, box, t.tick).Some? {
        RepairLoopIsFit(Skip(r, box, "backoff"), t, items[1..]);
        RestFits(r, Skip(r, box, "backoff"), end, t, items);
      } else if !CanStart(r, Repair, PROBE_MS) {
        assert end == r;
      } else if items[0].resume && !t.apply {
        RepairLoopIsFit(r, t, items[1..]);
        RestFits(r, r, end, t, items);
      } else if !items[0].resume && !t.inspect(box).ok {
        RepairLoopIsFit(Unreachable(v, box, t.tick), t, items[1..]);
        RestFits(r, Unreachable(v, box, t.tick), end, t, items);
      } else if !items[0].resume && (t.inspect(box).coherent || !t.apply) {
        RepairLoopIsFit(v, t, items[1..]);
        RestFits(r, v, end, t, items);
      } else {
        assert Workable(t, r.ledger, items[0], box) && end.calls == [box];
        assert end.calls[1..] == [] && Successes(t, end.calls[1..]) == 0;
      }
    }
  }

  lemma {:induction false} RepairItemsAreDue(members: seq<string>, m: Markers, tick: int)
    ensures forall i :: i in RepairItems(members, m, tick) ==>
            !i.resume && i.name in members && RepairDue(i.name, m, tick)
  {
    if members != [] {
      RepairItemsAreDue(members[1..], m, tick);
    }
  }

  lemma {:induction false} ResumeItemsAreRows(rows: seq<string>, l: seq<Record>, tick: int)
    ensures forall i :: i in ResumeItems(rows, l, tick) ==>
            i.resume && i.name in rows && InBackoff(l, i.name, tick).None?
  {
    if rows != [] {
      ResumeItemsAreRows(rows[1..], l, tick);
    }
  }

  lemma MutatedOnTurn(ledger: seq<Record>, t: Tick, m: Markers, stamped: Markers)
    ensures var u := BothPasses(ledger, t, m, stamped);
            var calls, l := u.calls, AdoptPass(Fresh(ledger), t, m).ledger;
            && u.adopted + u.repaired == Successes(t, calls)
            && (calls != [] ==>
                  || (calls[0] in t.candidates && Adoptable(t, ledger, calls[0]) && u.repaired == 0
                      && !RepairPending(t, m) && !EnrolPending(t.before, ledger, t.tick))
                  || (calls[0] in t.membership && RepairDue(calls[0], stamped, t.tick) && u.adopted == 0
                      && Workable(t, l, Item(calls[0], false), calls[0]))
                  || (calls[0] in t.after && Workable(t, l, Item(calls[0], true), calls[0]) && u.repaired == 0))
  {
    var u := Spent(Fresh(ledger), Shared, t.listMs).(skipped := Fresh(ledger).skipped + t.noted);
    hide AdoptLoop, RepairLoop, RepairPending, EnrolPending, SkipAll, RepairItems, ResumeItems, RepairDue, Adoptable,
        InBackoff;
    SkipAllKeeps(u, t.candidates, "no-api-token");
    SkipAllKeeps(u, t.candidates, "no-box-password");
    AdoptLoopIsFit(u, t, t.candidates);
    AdoptLoopCallsOnce(u, t, t.candidates);
    var a := AdoptPass(Fresh(ledger), t, m);
    var (repairs, resumes) := DueItems(a, t, stamped);
    SkipAllKeeps(a, Names(repairs + resumes), "no-api-token");
    SkipAllKeeps(a, Names(repairs + resumes), "no-box-password");
    if a.calls == [] {
      RepairLoopIsFit(a, t, Order(repairs, resumes, t.tick));
      RepairItemsAreDue(t.membership, stamped, t.tick);
      ResumeItemsAreRows(t.after, a.ledger, t.tick);
      var calls := RepairPass(a, t, stamped).calls;
      if calls != [] {
        var u := RepairPass(a, t, stamped);
        var i :| i in Order(repairs, resumes, t.tick) && Workable(t, a.ledger, i, calls[0])
                 && if i.resume then u.repaired == a.repaired else u.adopted == a.adopted;
        assert i == Item(i.name, i.resume) && i.name == calls[0];
      }
    } else {
      RepairLoopCallsOnce(a, t, Order(repairs, resumes, t.tick));
      UsedSlotEndsIt(a, t, Order(repairs, resumes, t.tick));
    }
  }

  /** The box a tick mutates is a fit candidate, while no member was pending repair and
      no row was pending; or a member that was due and found broken; or a row out of its
      window. The summary counts it as adopted or as repaired accordingly, if it
      succeeded. */
  lemma MutatedIsFit(ledger: seq<Record>, t: Tick, m: Markers, stamped: Markers)
    ensures var u := BothPasses(ledger, t, m, stamped);
            var calls, l := u.calls, AdoptPass(Fresh(ledger), t, m).ledger;
            && u.adopted + u.repaired == Successes(t, calls)
            && (calls != [] ==>
                  || (calls[0] in t.candidates && Adoptable(t, ledger, calls[0]) && u.repaired == 0
                      && !RepairPending(t, m) && !EnrolPending(t.before, ledger, t.tick))
                  || (calls[0] in t.membership && calls[0] in stamped && stamped[calls[0]].tick == t.tick
                    && stamped[calls[0]].runs >= 2 && u.adopted == 0
                      && Workable(t, l, Item(calls[0], false), calls[0]))
                  || (calls[0] in t.after && Workable(t, l, Item(calls[0], true), calls[0]) && u.repaired == 0))
  {
    MutatedOnTurn(ledger, t, m, stamped);
    hide BothPasses, Successes, Adoptable, RepairPending, EnrolPending, Workable, AdoptPass;
  }

  lemma UsedSlotEndsIt(r: Run, t: Tick, items: seq<Item>)
    requires r.slotUsed
    ensures RepairLoop(r, t, items) == r
  {
  }

  /** Adopt takes the first candidate in turn: those before it are in backoff, and it is
      fit itself. */
  lemma {:induction false} FirstInTurnIsAdopted(r: Run, t: Tick, names: seq<string>, k: nat)
    requires k < |names| && !r.slotUsed && CanStart(r, Adopt, PROBE_MS) && Adoptable(t, r.ledger, names[k])
    requires forall j :: 0 <= j < k ==> InBackoff(r.ledger, names[j], t.tick).Some?
    ensures AdoptLoop(r, t, names).calls == r.calls + [names[k]]
    decreases k
  {
    hide InBackoff, Failed, Cleared, Reason;
    if k > 0 {
      assert InBackoff(r.ledger, names[0], t.tick).Some?;
      FirstInTurnIsAdopted(Skip(r, names[0], "backoff"), t, names[1..], k - 1);
    } else {
      var (u, p) := Probed(r, t, names[0]);
      assert u.ledger == r.ledger && u.calls == r.calls && !u.slotUsed && Fit(p, names[0]);
    }
  }

  /** Repair takes the first workable item in turn, behind items in backoff. */
  lemma {:induction false} FirstInTurnIsWorked(r: Run, t: Tick, items: seq<Item>, k: nat)
    requires k < |items| && !r.slotUsed && CanStart(r, Repair, PROBE_MS)
    requires Workable(t, r.ledger, items[k], items[k].name)
    requires forall j :: 0 <= j < k ==> InBackoff(r.ledger, items[j].name, t.tick).Some?
    ensures RepairLoop(r, t, items).calls == r.calls + [items[k].name]
    decreases k
  {
    hide InBackoff, Failed, Cleared, Reason;
    if k > 0 {
      assert InBackoff(r.ledger, items[0].name, t.tick).Some?;
      FirstInTurnIsWorked(Skip(r, items[0].name, "backoff"), t, items[1..], k - 1);
    }
  }

  /** The two kinds of repair work take turns: when both are due and the slot and the
      budget are there, the first row is enrolled on an odd tick, and on an even one the
      first member out of its window is, if it is found broken. */
  lemma NeitherKindStarves(r: Run, t: Tick, m: Markers, k: nat)
    requires !t.readonly && t.apply && t.apiToken && t.password && !r.slotUsed && CanStart(r, Repair, PROBE_MS)
    requires var (repairs, resumes) := DueItems(r, t, m); resumes != [] && k < |repairs|
    requires var (repairs, _) := DueItems(r, t, m);
             forall j :: 0 <= j < k ==> InBackoff(r.ledger, repairs[j].name, t.tick).Some?
    ensures var (repairs, resumes) := DueItems(r, t, m);
            && (t.tick % 2 == 1 ==> RepairPass(r, t, m).calls == r.calls + [resumes[0].name])
            && (t.tick % 2 == 0 && Workable(t, r.ledger, repairs[k], repairs[k].name) ==>
                  RepairPass(r, t, m).calls == r.calls + [repairs[k].name])
  {
    var (repairs, resumes) := DueItems(r, t, m);
    ResumeItemsAreRows(t.after, r.ledger, t.tick);
    assert resumes[0] in resumes;
    hide InBackoff, CanStart, RepairItems, ResumeItems, RepairLoop;
    if t.tick % 2 == 1 {
      FirstInTurnIsWorked(r, t, resumes + repairs, 0);
    } else if Workable(t, r.ledger, repairs[k], repairs[k].name) {
      FirstInTurnIsWorked(r, t, repairs + resumes, k);
    }
  }

  /** Every tick lists all due members and all rows out of their windows, in their orders, the
      members first on an even tick and the rows first on an odd one. */
  lemma EachTickListsBoth(r: Run, t: Tick, m: Markers)
    ensures var (repairs, resumes) := DueItems(r, t, m);
            var items := Order(repairs, resumes, t.tick);
            && |items| == |repairs| + |resumes|
            && (if t.tick % 2 == 0 then repairs <= items && items[|repairs|..] == resumes
                else resumes <= items && items[|resumes|..] == repairs)
    ensures forall box :: Item(box, false) in DueItems(r, t, m).0
                          <==> box in t.membership && box in m && m[box].tick == t.tick && m[box].runs >= 2
    ensures forall row :: Item(row, true) in DueItems(r, t, m).1
                          <==> row in t.after && InBackoff(r.ledger, row, t.tick).None?
  {
    hide InBackoff;
    forall box ensures Item(box, false) in DueItems(r, t, m).0 <==> box in t.membership && RepairDue(box, m, t.tick) {
      RepairItemsHave(t.membership, m, t.tick, box);
    }
    forall row
      ensures Item(row, true) in DueItems(r, t, m).1 <==> row in t.after && InBackoff(r.ledger, row, t.tick).None?
    {
      ResumeItemsHave(t.after, r.ledger, t.tick, row);
    }
  }

  lemma {:induction false} RepairItemsHave(members: seq<string>, m: Markers, tick: int, box: string)
    ensures Item(box, false) in RepairItems(members, m, tick) <==> box in members && RepairDue(box, m, tick)
  {
    hide RepairDue;
    if members != [] {
      RepairItemsHave(members[1..], m, tick, box);
      assert box in members <==> box == members[0] || box in members[1..];
    }
  }

  lemma {:induction false} ResumeItemsHave(rows: seq<string>, l: seq<Record>, tick: int, row: string)
    ensures Item(row, true) in ResumeItems(rows, l, tick) <==> row in rows && InBackoff(l, row, tick).None?
  {
    hide InBackoff;
    if rows != [] {
      ResumeItemsHave(rows[1..], l, tick, row);
      assert row in rows <==> row == rows[0] || row in rows[1..];
    }
  }

  // ----- the time budget -----

  /** Every timed call of the tick stays within its ceiling. */
  ghost predicate Prompt(t: Tick) {
    forall name: string :: t.probe(name).ms <= PROBE_MS && t.again(name).ms <= PROBE_MS
        && t.inspect(name).ms <= PROBE_MS
  }

  lemma {:induction false} AdoptLoopSpends(r: Run, t: Tick, names: seq<string>)
    requires Prompt(t) && r.adopt <= ADOPT_MS + PROBE_MS
    ensures var u := AdoptLoop(r, t, names);
            && r.adopt <= u.adopt <= ADOPT_MS + PROBE_MS
            && u.total - u.adopt == r.total - r.adopt && u.repair == r.repair
    decreases |names|
  {
    hide InBackoff, Failed, Cleared, Reason;
    if names != [] {
      assert t.probe(names[0]).ms <= PROBE_MS;
      var (u, p) := Probed(r, t, names[0]);
      AdoptLoopSpends(Skip(r, names[0], "backoff"), t, names[1..]);
      if CanStart(r, Adopt, PROBE_MS) {
        AdoptLoopSpends(Unreachable(u, names[0], t.tick), t, names[1..]);
        AdoptLoopSpends(Skip(u, names[0], "name-mismatch"), t, names[1..]);
        AdoptLoopSpends(Skip(u, names[0], "boxup-missing"), t, names[1..]);
        AdoptLoopSpends(u, t, names[1..]);
      }
    }
  }

  /** Checking from r to u stays within the repair share. Only a resume may pass it, by its
      own enrolment, which starts while a whole ceiling of the share is left and ends the
      pass. */
  ghost predicate ChecksWithin(r: Run, u: Run, t: Tick) {
    && u.adopt == r.adopt && r.repair <= u.repair
    && (u.calls == r.calls ==> u.repair <= REPAIR_MS)
    && (u.repaired > r.repaired ==> u.repair <= REPAIR_MS)
    && (u.repair > REPAIR_MS ==>
          |u.calls| > 0 && u.repair <= REPAIR_MS - PROBE_MS + t.enrol(u.calls[|u.calls| - 1]).ms)
  }

  lemma {:induction false} RepairLoopSpends(r: Run, t: Tick, items: seq<Item>)
    requires Prompt(t) && r.repair <= REPAIR_MS
    ensures ChecksWithin(r, RepairLoop(r, t, items), t)
    decreases |items|
  {
    hide InBackoff, Failed, Cleared, Reason;
    if items != [] {
      var box := items[0].name;
      assert t.inspect(box).ms <= PROBE_MS;
      var u := Spent(r, Repair, t.inspect(box).ms);
      RepairLoopSpends(Skip(r, box, "backoff"), t, items[1..]);
      RepairLoopSpends(r, t, items[1..]);
      if CanStart(r, Repair, PROBE_MS) {
        RepairLoopSpends(Unreachable(u, box, t.tick), t, items[1..]);
        RepairLoopSpends(u, t, items[1..]);
      }
    }
  }

  /** Probing takes at most the adopt share and one re-probe, checking at most the
      repair share; and the first check may start exactly when listing and probing
      left a whole ceiling of the pool: the reserve is conditional. */
  lemma TimeBounds(ledger: seq<Record>, t: Tick, m: Markers, stamped: Markers)
    requires Prompt(t)
    ensures var a := AdoptPass(Fresh(ledger), t, m);
            var b := RepairPass(a, t, stamped);
            && a.adopt <= ADOPT_MS + PROBE_MS && a.repair == 0
            && (!t.readonly ==> a.total == t.listMs + a.adopt)
            && ChecksWithin(a, b, t)
            && (CanStart(a, Repair, PROBE_MS) <==> a.total <= BUDGET_MS - PROBE_MS)
  {
    var u := Spent(Fresh(ledger), Shared, t.listMs).(skipped := t.noted);
    assert Fresh(ledger).skipped + t.noted == t.noted;
    hide AdoptLoop, RepairLoop, RepairPending, EnrolPending, SkipAll, RepairItems, ResumeItems, Order;
    SkipAllKeeps(u, t.candidates, "no-api-token");
    SkipAllKeeps(u, t.candidates, "no-box-password");
    AdoptLoopSpends(u, t, t.candidates);
    var a := AdoptPass(Fresh(ledger), t, m);
    var (repairs, resumes) := DueItems(a, t, stamped);
    SkipAllKeeps(a, Names(repairs + resumes), "no-api-token");
    SkipAllKeeps(a, Names(repairs + resumes), "no-box-password");
    RepairLoopSpends(a, t, Order(repairs, resumes, t.tick));
  }

  // ----- repair outranks adopt -----

  /** The membership loop: each member's marker is bumped on an incoherent tick and
      set back to none on any other. */
  function Stamp(m: Markers, members: seq<string>, incoherent: set<string>, tick: int): Markers {
    if members == [] then m
    else
      var box := members[|members| - 1];
      var was := Stamp(m, members[..|members| - 1], incoherent, tick);
      was[box := Marker(if box in incoherent then (if box in was then was[box].runs else 0) + 1 else 0, tick)]
  }

  ghost predicate Distinct(members: seq<string>) {
    forall i, j :: 0 <= i < j < |members| ==> members[i] != members[j]
  }

  lemma {:induction false} StampIsExact(m: Markers, members: seq<string>, incoherent: set<string>, tick: int,
      box: string)
    requires Distinct(members)
    ensures var s := Stamp(m, members, incoherent, tick);
            if box in members then
              box in s
              && s[box] == Marker(if box in incoherent then (if box in m then m[box].runs else 0) + 1 else 0, tick)
            else (box in s <==> box in m) && (box in m ==> s[box] == m[box])
  {
    if members != [] {
      var pre, last := members[..|members| - 1], members[|members| - 1];
      StampIsExact(m, pre, incoherent, tick, box);
      assert last !in pre;
      assert members == pre + [last];
    }
  }

  /** A box that stays a member is due for repair at tick t exactly when it was
      incoherent at both t-1 and t. */
  lemma DueMeansTwoTicks(m: Markers, before: seq<string>, now: seq<string>, inc1: set<string>, inc2: set<string>,
                         t: int, box: string)
    requires Distinct(before) && Distinct(now) && box in before && box in now
    ensures var m1 := Stamp(m, before, inc1, t - 1);
            var m2 := Stamp(m1, now, inc2, t);
            && (RepairDue(box, m2, t) <==> box in inc1 && box in inc2)
            && (Pending(box, m1, t) <==> box in inc1)
  {
    StampIsExact(m, before, inc1, t - 1, box);
    StampIsExact(Stamp(m, before, inc1, t - 1), now, inc2, t, box);
    hide Stamp, Distinct;
  }

  /** The adopt pass yields to a member with a live marker: it mutates nothing. */
  lemma AdoptYields(r: Run, t: Tick, m: Markers, box: string)
    requires box in t.membership && Pending(box, m, t.tick)
    ensures AdoptPass(r, t, m).slotUsed == r.slotUsed && AdoptPass(r, t, m).calls == r.calls
  {
    assert RepairPending(t, m) by {
      var i :| 0 <= i < |t.membership| && t.membership[i] == box;
      assert Pending(t.membership[i], m, t.tick);
    }
    var u := Spent(r, Shared, t.listMs).(skipped := r.skipped + t.noted);
    hide AdoptLoop, SkipAll, RepairPending, EnrolPending;
    SkipAllKeeps(u, t.candidates, "no-api-token");
    SkipAllKeeps(u, t.candidates, "no-box-password");
  }

  /** So whenever a steady member is due for repair, the slot is still free when
      the repair pass of that tick begins. */
  lemma SlotIsFreeForDueRepair(m: Markers, before: seq<string>, inc1: set<string>, inc2: set<string>,
                               t: Tick, ledger: seq<Record>, box: string)
    requires Distinct(before) && Distinct(t.membership) && box in before && box in t.membership
    requires RepairDue(box, Stamp(Stamp(m, before, inc1, t.tick - 1), t.membership, inc2, t.tick), t.tick)
    ensures !AdoptPass(Fresh(ledger), t, Stamp(m, before, inc1, t.tick - 1)).slotUsed
  {
    hide Stamp, AdoptPass, RepairDue, Pending, Distinct;
    DueMeansTwoTicks(m, before, t.membership, inc1, inc2, t.tick, box);
    AdoptYields(Fresh(ledger), t, Stamp(m, before, inc1, t.tick - 1), box);
  }

  /** Whatever the markers were: a due box is not yielded to exactly when its
      marker was not written by the preceding tick, that is, when it was no member
      then. Two lapses apart count as consecutive. */
  lemma DueButNotYielded(m: Markers, t: Tick, inc: set<string>, box: string)
    requires Distinct(t.membership) && box in t.membership
    ensures RepairDue(box, Stamp(m, t.membership, inc, t.tick), t.tick) && !Pending(box, m, t.tick)
            <==> box in inc && box in m && m[box].runs >= 1 && m[box].tick != t.tick - 1
  {
    StampIsExact(m, t.membership, inc, t.tick, box);
    hide Stamp, Distinct;
  }

  /** A run that breaks the promise: `b` is stamped incoherent at tick 10, is no member at
      11 and 12, and is back and incoherent at 13. It is due, and adopt has spent the slot
      on the candidate `c`. */
  lemma LapsedBoxLosesTheSlot() returns (t: Tick, before: Markers, after: Markers)
    ensures before == Stamp(Stamp(Stamp(map[], ["b"], {"b"}, 10), [], {}, 11), [], {}, 12)
    ensures t.tick == 13 && t.membership == ["b"] && after == Stamp(before, t.membership, {"b"}, t.tick)
    ensures RepairDue("b", after, t.tick)
    ensures AdoptPass(Fresh([]), t, before).slotUsed && BothPasses([], t, before, after).calls == ["c"]
  {
    var first := Stamp(map[], ["b"], {"b"}, 10);
    before := Stamp(Stamp(first, [], {}, 11), [], {}, 12);
    assert before == first;
    after := Stamp(before, ["b"], {"b"}, 13);
    StampIsExact(map[], ["b"], {"b"}, 10, "b");
    StampIsExact(before, ["b"], {"b"}, 13, "b");
    t := Tick(13, false, true, true, true, ["b"], [], [], 0, ["c"], [],
              (name: string) => Probe(true, "", true, false, 0), (name: string) => Probe(true, "", true, false, 0),
              (name: string) => Enrolment(0, None, 0), (name: string) => Findings(true, false, 0));
    hide Stamp, AdoptLoop, RepairLoop, Order, RepairItems, ResumeItems;
    var r := Fresh([]);
    assert !RepairPending(t, before) && !EnrolPending(t.before, r.ledger, t.tick);
    assert Adoptable(t, r.ledger, "c") && CanStart(r, Adopt, PROBE_MS);
    FirstInTurnIsAdopted(Spent(r, Shared, 0).(skipped := r.skipped + []), t, ["c"], 0);
    AdoptLoopCallsOnce(Spent(r, Shared, 0).(skipped := r.skipped + []), t, ["c"]);
    var a := AdoptPass(r, t, before);
    assert a.calls == [] + ["c"] && a.slotUsed;
    var (repairs, resumes) := DueItems(a, t, after);
    UsedSlotEndsIt(a, t, Order(repairs, resumes, 13));
  }

  // ----- the backoff schedule -----

  lemma BackoffIsBounded(f: nat)
    ensures f >= 1 ==> 1 <= BackoffTicks(f) <= CAP_TICKS
    ensures f == 0 ==> BackoffTicks(f) == 0
  {
    if f >= 1 {
      Pow2IsPositive(if f - 1 < 30 then f - 1 else 30);
    }
  }

  /** 1, 2, 4, 8, then 12 for good. */
  lemma BackoffDoubles(f: nat)
    requires f >= 1
    ensures BackoffTicks(1) == 1
    ensures BackoffTicks(f + 1) == if 2 * BackoffTicks(f) < CAP_TICKS then 2 * BackoffTicks(f) else CAP_TICKS
  {
    assert Pow2(0) == 1;
    Pow2IsPositive(if f - 1 < 30 then f - 1 else 30);
    if f > 30 {
      Pow2Is16(30);
    }
  }

  lemma {:induction false} Pow2Is16(n: nat)
    requires n >= 4
    ensures Pow2(n) >= 16
  {
    if n > 4 {
      Pow2Is16(n - 1);
    } else {
      assert Pow2(0) == 1 && Pow2(1) == 2 && Pow2(2) == 4 && Pow2(3) == 8;
    }
  }

  lemma {:induction false} Pow2IsPositive(n: nat)
    ensures Pow2(n) >= 1
  {
    if n > 0 {
      Pow2IsPositive(n - 1);
    }
  }

  lemma FindFirst(r: Record, l: seq<Record>, name: string)
    ensures Find([r] + l, name) == if r.name == name then Some(r) else Find(l, name)
  {
    assert ([r] + l)[1..] == l;
  }

  lemma FailedFirst(l: seq<Record>, name: string, reason: string, tick: int)
    requires l != []
    ensures Failed(l, name, reason, tick)
            == if l[0].name == name then [Record(name, l[0].failures + 1, reason, tick)] + l[1..]
               else [l[0]] + Failed(l[1..], name, reason, tick)
  {
  }

  lemma {:induction false} FindFailed(l: seq<Record>, name: string, reason: string, tick: int, other: string)
    ensures Find(Failed(l, name, reason, tick), other)
            == if other != name then Find(l, other)
               else
                 var failures := if Find(l, name).Some? then Find(l, name).value.failures else 0;
                 Some(Record(name, failures + 1, reason, tick))
  {
    if l == [] {
      assert Failed(l, name, reason, tick) == [Record(name, 1, reason, tick)] + l;
      FindFirst(Record(name, 1, reason, tick), l, other);
    } else {
      hide Failed, Find;
      FailedFirst(l, name, reason, tick);
      assert l == [l[0]] + l[1..];
      FindFirst(l[0], l[1..], other);
      FindFirst(l[0], l[1..], name);
      if l[0].name == name {
        FindFirst(Record(name, l[0].failures + 1, reason, tick), l[1..], other);
      } else {
        FindFirst(l[0], Failed(l[1..], name, reason, tick), other);
        FindFailed(l[1..], name, reason, tick, other);
      }
    }
  }

  lemma {:induction false} FindCleared(l: seq<Record>, name: string, other: string)
    ensures Find(Cleared(l, name), other) == if other == name then None else Find(l, other)
  {
    if l != [] {
      FindCleared(l[1..], name, other);
    }
  }

  predicate InWindow(a: Option<Record>, tick: int) {
    a.Some? && a.value.failures > 0 && tick - a.value.lastTick < BackoffTicks(a.value.failures)
  }

  /** What a tick may do to the record of a name. Inside its window nothing; outside
      it keep the record, forget it, begin a streak or count one more failure. */
  ghost predicate Advanced(a: Option<Record>, b: Option<Record>, tick: int) {
    || b == a
    || (!InWindow(a, tick)
        && (|| b.None?
            || (b.value.failures == 1 && b.value.lastTick == tick)
            || (a.Some? && b.value.failures == a.value.failures + 1 && b.value.lastTick == tick)))
  }

  ghost predicate StepOk(l: seq<Record>, k: seq<Record>, tick: int) {
    && (NamesDistinct(l) ==> NamesDistinct(k))
    && forall name: string :: Advanced(Find(l, name), Find(k, name), tick)
  }

  lemma {:induction false} FailedKeepsNames(l: seq<Record>, name: string, reason: string, tick: int)
    requires NamesDistinct(l)
    ensures NamesDistinct(Failed(l, name, reason, tick))
    ensures forall r :: r in Failed(l, name, reason, tick) ==> r.name == name || exists q :: q in l && q.name == r.name
  {
    if l != [] && l[0].name != name {
      FailedKeepsNames(l[1..], name, reason, tick);
      var rest := Failed(l[1..], name, reason, tick);
      forall i | 0 <= i < |rest| ensures rest[i].name != l[0].name {
        assert rest[i] in rest;
      }
      forall r | r in [l[0]] + rest ensures r.name == name || exists q :: q in l && q.name == r.name {
        assert r == l[0] || r in rest;
      }
    }
  }

  lemma {:induction false} ClearedKeepsNames(l: seq<Record>, name: string)
    requires NamesDistinct(l)
    ensures NamesDistinct(Cleared(l, name))
    ensures forall r :: r in Cleared(l, name) ==> r in l
  {
    if l != [] {
      ClearedKeepsNames(l[1..], name);
      var rest := Cleared(l[1..], name);
      forall i | 0 <= i < |rest| ensures rest[i].name != l[0].name {
        assert rest[i] in l[1..];
      }
    }
  }

  lemma FailedIsStep(l: seq<Record>, name: string, reason: string, tick: int)
    requires InBackoff(l, name, tick).None?
    ensures StepOk(l, Failed(l, name, reason, tick), tick)
  {
    forall other: string ensures Advanced(Find(l, other), Find(Failed(l, name, reason, tick), other), tick) {
      FindFailed(l, name, reason, tick, other);
    }
    if NamesDistinct(l) {
      FailedKeepsNames(l, name, reason, tick);
    }
  }

  lemma ClearedIsStep(l: seq<Record>, name: string, tick: int)
    requires InBackoff(l, name, tick).None?
    ensures StepOk(l, Cleared(l, name), tick)
  {
    forall other: string ensures Advanced(Find(l, other), Find(Cleared(l, name), other), tick) {
      FindCleared(l, name, other);
    }
    if NamesDistinct(l) {
      ClearedKeepsNames(l, name);
    }
  }

  /** A name that failed is in its window for the rest of the tick, so the steps of
      one tick compose. */
  lemma StepsCompose(l: seq<Record>, k: seq<Record>, j: seq<Record>, tick: int)
    requires StepOk(l, k, tick) && StepOk(k, j, tick)
    ensures StepOk(l, j, tick)
  {
    hide Find, BackoffTicks, NamesDistinct;
    forall name: string ensures Advanced(Find(l, name), Find(j, name), tick) {
      var a, b, c := Find(l, name), Find(k, name), Find(j, name);
      assert Advanced(a, b, tick) && Advanced(b, c, tick);
      if b.Some? {
        BackoffIsBounded(b.value.failures);
      }
    }
  }

  lemma EnrolledIsStep(r: Run, name: string, a: Enrolment, tick: int, repair: bool)
    requires InBackoff(r.ledger, name, tick).None?
    ensures StepOk(r.ledger, Enrolled(r, name, a, tick, repair).ledger, tick)
  {
    FailedIsStep(r.ledger, name, Reason(a), tick);
    ClearedIsStep(r.ledger, name, tick);
    hide StepOk, Failed, Cleared, InBackoff, Reason;
  }

  lemma UnreachableIsStep(r: Run, name: string, tick: int, l: seq<Record>)
    requires InBackoff(r.ledger, name, tick).None?
    requires StepOk(Unreachable(r, name, tick).ledger, l, tick)
    ensures StepOk(r.ledger, l, tick)
  {
    FailedIsStep(r.ledger, name, "unreachable", tick);
    hide StepOk, Failed, InBackoff;
    StepsCompose(r.ledger, Failed(r.ledger, name, "unreachable", tick), l, tick);
  }

  lemma {:induction false} AdoptLoopSteps(r: Run, t: Tick, names: seq<string>)
    ensures StepOk(r.ledger, AdoptLoop(r, t, names).ledger, t.tick)
    decreases |names|
  {
    assert StepOk(r.ledger, r.ledger, t.tick);
    hide StepOk, Unreachable, InBackoff, CanStart, Reason, Enrolled;
    if names != [] {
      var name := names[0];
      var (u, p) := Probed(r, t, name);
      assert u.ledger == r.ledger;
      AdoptLoopSteps(Skip(r, name, "backoff"), t, names[1..]);
      AdoptLoopSteps(Skip(u, name, "name-mismatch"), t, names[1..]);
      AdoptLoopSteps(Skip(u, name, "boxup-missing"), t, names[1..]);
      AdoptLoopSteps(u, t, names[1..]);
      AdoptLoopSteps(Unreachable(u, name, t.tick), t, names[1..]);
      if InBackoff(r.ledger, name, t.tick).None? {
        UnreachableIsStep(u, name, t.tick, AdoptLoop(Unreachable(u, name, t.tick), t, names[1..]).ledger);
        EnrolledIsStep(u, name, t.enrol(name), t.tick, false);
      }
    }
  }

  lemma {:induction false} RepairLoopSteps(r: Run, t: Tick, items: seq<Item>)
    ensures StepOk(r.ledger, RepairLoop(r, t, items).ledger, t.tick)
    decreases |items|
  {
    assert StepOk(r.ledger, r.ledger, t.tick);
    hide StepOk, Unreachable, InBackoff, CanStart, Reason, Enrolled;
    if items != [] {
      var box := items[0].name;
      var u := Spent(r, Repair, t.inspect(box).ms);
      RepairLoopSteps(Skip(r, box, "backoff"), t, items[1..]);
      RepairLoopSteps(r, t, items[1..]);
      RepairLoopSteps(u, t, items[1..]);
      RepairLoopSteps(Unreachable(u, box, t.tick), t, items[1..]);
      if InBackoff(r.ledger, box, t.tick).None? {
        UnreachableIsStep(u, box, t.tick, RepairLoop(Unreachable(u, box, t.tick), t, items[1..]).ledger);
        EnrolledIsStep(u, box, t.enrol(box), t.tick, true);
        EnrolledIsStep(Spent(r, Repair, t.enrol(box).ms), box, t.enrol(box), t.tick, false);
      }
    }
  }

  /** A tick leaves the record of a name inside its window alone, and counts at most
      one failure for any other. */
  lemma TickRespectsBackoff(ledger: seq<Record>, t: Tick, m: Markers, stamped: Markers)
    ensures StepOk(ledger, BothPasses(ledger, t, m, stamped).ledger, t.tick)
  {
    var u := Spent(Fresh(ledger), Shared, t.listMs).(skipped := Fresh(ledger).skipped + t.noted);
    assert StepOk(ledger, ledger, t.tick);
    hide AdoptLoop, RepairLoop, RepairPending, EnrolPending, SkipAll, RepairItems, ResumeItems, Order, StepOk;
    SkipAllKeeps(u, t.candidates, "no-api-token");
    SkipAllKeeps(u, t.candidates, "no-box-password");
    AdoptLoopSteps(u, t, t.candidates);
    var a := AdoptPass(Fresh(ledger), t, m);
    assert StepOk(ledger, a.ledger, t.tick);
    var (repairs, resumes) := DueItems(a, t, stamped);
    SkipAllKeeps(a, Names(repairs + resumes), "no-api-token");
    SkipAllKeeps(a, Names(repairs + resumes), "no-box-password");
    RepairLoopSteps(a, t, Order(repairs, resumes, t.tick));
    var b := RepairPass(a, t, stamped);
    assert b.ledger == a.ledger || b.ledger == RepairLoop(a, t, Order(repairs, resumes, t.tick)).ledger;
    if b.ledger != a.ledger {
      StepsCompose(ledger, a.ledger, b.ledger, t.tick);
    }
  }

  // ----- what a tick books -----

  function Failures(l: seq<Record>, name: string): nat {
    if Find(l, name).Some? then Find(l, name).value.failures else 0
  }

  /** What the summary says of a skipped name is so; `u` is the run at the end. */
  predicate SkipIsTrue(t: Tick, u: Run, name: string, reason: string) {
    var p := LastProbe(t, name);
    if reason == "backoff" then InBackoff(u.ledger, name, t.tick).Some?
    else if reason == "unreachable" then !p.reachable || !t.inspect(name).ok
    else if reason == "name-mismatch" then p.reachable && p.hostname != "" && p.hostname != name
    else if reason == "boxup-missing" then p.reachable && (p.hostname == "" || p.hostname == name) && !p.boxup
    else if reason == "no-api-token" then !t.apiToken
    else if reason == "no-box-password" then t.apiToken && !t.password
    else name in u.calls && t.enrol(name).rc != 0 && reason == Reason(t.enrol(name))
  }

  /** The record of a name after these calls and skips. */
  predicate Booked(l: seq<Record>, k: seq<Record>, calls: seq<string>, said: seq<(string, string)>, t: Tick,
                   n: string) {
    Find(k, n) ==
      if n in calls && t.enrol(n).rc == 0 then None
      else if n in calls then Some(Record(n, Failures(l, n) + 1, Reason(t.enrol(n)), t.tick))
      else if (n, "unreachable") in said then Some(Record(n, Failures(l, n) + 1, "unreachable", t.tick))
      else Find(l, n)
  }

  predicate LeftAlone(l: seq<Record>, calls: seq<string>, said: seq<(string, string)>, t: Tick, n: string) {
    InBackoff(l, n, t.tick).Some? ==> n !in calls && (n, "unreachable") !in said
  }

  /** From r to u every name's record is booked by what happened to it, and a name in
      backoff is left alone. */
  ghost predicate Books(r: Run, u: Run, t: Tick) {
    && r.calls <= u.calls && r.skipped <= u.skipped
    && var calls, said := u.calls[|r.calls|..], u.skipped[|r.skipped|..];
       && (forall n: string :: Booked(r.ledger, u.ledger, calls, said, t, n) && LeftAlone(r.ledger, calls, said, t, n))
       && forall k :: 0 <= k < |said| ==> SkipIsTrue(t, u, said[k].0, said[k].1)
  }

  lemma ReasonIsItsOwn(a: Enrolment)
    ensures Reason(a) != "" && (Reason(a)[0] == 't' || Reason(a)[0] == 'e')
  {
    hide Decimal;
  }

  /** A recorded reason tells which failure it was: at which point the time ran out, or which
      code the enrolment returned. */
  lemma ReasonTellsTheFailure(a: Enrolment, b: Enrolment)
    ensures Reason(a) == Reason(b)
            <==> a.timeoutPoint == b.timeoutPoint && (a.timeoutPoint.None? ==> a.rc == b.rc)
    ensures Reason(a) != "unreachable" && Reason(a) != "backoff"
  {
    hide *;
    assert "unreachable"[0] == 'u' && "backoff"[0] == 'b';
    var at, bt := a.timeoutPoint.Some?, b.timeoutPoint.Some?;
    if at { TimeoutIsTold(a); } else { CodeIsTold(a); }
    if bt { TimeoutIsTold(b); } else { CodeIsTold(b); }
    if !at && !bt && Reason(a) == Reason(b) {
      if a.rc < 0 && b.rc < 0 {
        assert Reason(a)[9..][1..] == Decimal(-a.rc) && Reason(b)[9..][1..] == Decimal(-b.rc);
        DecimalIsInjective(-a.rc, -b.rc);
      } else if a.rc >= 0 && b.rc >= 0 {
        DecimalIsInjective(a.rc, b.rc);
      }
    }
    if a.timeoutPoint == b.timeoutPoint && (at || a.rc == b.rc) {
      SameReason(a, b);
    }
  }

  lemma SameReason(a: Enrolment, b: Enrolment)
    requires a.timeoutPoint == b.timeoutPoint && (a.timeoutPoint.None? ==> a.rc == b.rc)
    ensures Reason(a) == Reason(b)
  {
  }

  lemma TimeoutIsTold(a: Enrolment)
    requires a.timeoutPoint.Some?
    ensures |Reason(a)| >= 8 && Reason(a)[0] == 't' && Reason(a)[8..] == a.timeoutPoint.value
  {
  }

  lemma CodeIsTold(a: Enrolment)
    requires a.timeoutPoint.None?
    ensures |Reason(a)| > 9 && Reason(a)[0] == 'e'
    ensures Reason(a)[9..] == if a.rc < 0 then "-" + Decimal(-a.rc) else Decimal(a.rc)
    ensures Reason(a)[9] == '-' <==> a.rc < 0
  {
    hide Decimal;
    assert a.rc >= 0 ==> Decimal(a.rc)[0] in Decimal(a.rc);
  }

  lemma SameBooks(r: Run, u: Run, t: Tick)
    requires r.calls == u.calls && r.skipped == u.skipped && r.ledger == u.ledger
    ensures Books(r, u, t)
  {
    hide Find, InBackoff, SkipIsTrue;
    assert u.calls[|r.calls|..] == [] && u.skipped[|r.skipped|..] == [];
  }

  /** A skip that changes no record. */
  lemma SkipBooks(r: Run, t: Tick, name: string, reason: string)
    requires reason != "unreachable" && SkipIsTrue(t, Skip(r, name, reason), name, reason)
    ensures Books(r, Skip(r, name, reason), t)
  {
    hide Find, InBackoff, SkipIsTrue;
    var u := Skip(r, name, reason);
    assert u.calls[|r.calls|..] == [] && u.skipped[|r.skipped|..] == [(name, reason)];
  }

  lemma UnreachableBooks(r: Run, t: Tick, name: string)
    requires InBackoff(r.ledger, name, t.tick).None? && (!LastProbe(t, name).reachable || !t.inspect(name).ok)
    ensures Books(r, Unreachable(r, name, t.tick), t)
  {
    var u := Unreachable(r, name, t.tick);
    assert u.calls[|r.calls|..] == [] && u.skipped[|r.skipped|..] == [(name, "unreachable")];
    hide InBackoff, Failed, LastProbe;
    forall n: string ensures Booked(r.ledger, u.ledger, [], [(name, "unreachable")], t, n) {
      FindFailed(r.ledger, name, "unreachable", t.tick, n);
    }
  }

  lemma EnrolledBooks(r: Run, t: Tick, name: string, repair: bool)
    requires InBackoff(r.ledger, name, t.tick).None?
    ensures Books(r, Enrolled(r, name, t.enrol(name), t.tick, repair), t)
  {
    var a := t.enrol(name);
    var u := Enrolled(r, name, a, t.tick, repair);
    ReasonIsItsOwn(a);
    hide InBackoff, Failed, Cleared, Reason, LastProbe, Find;
    var said := if a.rc == 0 then [] else [(name, Reason(a))];
    assert u.calls[|r.calls|..] == [name] && u.skipped[|r.skipped|..] == said;
    assert (name, "unreachable") !in said;
    forall n: string ensures Booked(r.ledger, u.ledger, [name], said, t, n) && LeftAlone(r.ledger, [name], said, t, n) {
      FindFailed(r.ledger, name, Reason(a), t.tick, n);
      FindCleared(r.ledger, name, n);
    }
  }

  lemma FailedIsInBackoff(l: seq<Record>, n: string, f: nat, reason: string, tick: int)
    requires Find(l, n) == Some(Record(n, f + 1, reason, tick))
    ensures InBackoff(l, n, tick).Some?
  {
    BackoffIsBounded(f + 1);
    hide Find, BackoffTicks;
  }

  lemma BackoffStays(r: Run, u: Run, t: Tick, n: string)
    requires Books(r, u, t) && InBackoff(r.ledger, n, t.tick).Some?
    ensures InBackoff(u.ledger, n, t.tick).Some?
  {
    var calls, said := u.calls[|r.calls|..], u.skipped[|r.skipped|..];
    assert Booked(r.ledger, u.ledger, calls, said, t, n) && LeftAlone(r.ledger, calls, said, t, n);
    hide Find, BackoffTicks, Reason;
  }

  lemma SkipStaysTrue(r: Run, u: Run, t: Tick, name: string, reason: string)
    requires Books(r, u, t) && SkipIsTrue(t, r, name, reason)
    ensures SkipIsTrue(t, u, name, reason)
  {
    if reason == "backoff" {
      BackoffStays(r, u, t, name);
    }
    hide Reason, InBackoff, LastProbe, Booked, LeftAlone;
    assert forall n :: n in r.calls ==> n in u.calls;
  }

  lemma BooksCompose(r: Run, v: Run, u: Run, t: Tick)
    requires Books(r, v, t) && Books(v, u, t)
    requires v.calls == r.calls || (u.calls == v.calls && u.skipped == v.skipped && u.ledger == v.ledger)
    ensures Books(r, u, t)
  {
    var c1, s1 := v.calls[|r.calls|..], v.skipped[|r.skipped|..];
    var c2, s2 := u.calls[|v.calls|..], u.skipped[|v.skipped|..];
    var c, s := u.calls[|r.calls|..], u.skipped[|r.skipped|..];
    assert c == c1 + c2 && s == s1 + s2;
    hide Find, InBackoff, Reason, SkipIsTrue, Failures;
    forall n: string ensures Booked(r.ledger, u.ledger, c, s, t, n) && LeftAlone(r.ledger, c, s, t, n) {
      BookedTwice(r.ledger, v.ledger, u.ledger, c1, s1, c2, s2, t, n);
    }
    forall k | 0 <= k < |s| ensures SkipIsTrue(t, u, s[k].0, s[k].1) {
      if k < |s1| {
        SkipStaysTrue(v, u, t, s1[k].0, s1[k].1);
      } else {
        assert s[k] == s2[k - |s1|];
      }
    }
  }

  lemma BookedTwice(l: seq<Record>, m: seq<Record>, k: seq<Record>, c1: seq<string>, s1: seq<(string, string)>,
                    c2: seq<string>, s2: seq<(string, string)>, t: Tick, n: string)
    requires Booked(l, m, c1, s1, t, n) && LeftAlone(l, c1, s1, t, n)
    requires Booked(m, k, c2, s2, t, n) && LeftAlone(m, c2, s2, t, n)
    requires c1 == [] || (c2 == [] && s2 == [])
    ensures Booked(l, k, c1 + c2, s1 + s2, t, n) && LeftAlone(l, c1 + c2, s1 + s2, t, n)
  {
    hide Find, BackoffTicks, Reason;
    if n !in c1 && (n, "unreachable") in s1 {
      FailedIsInBackoff(m, n, Failures(l, n), "unreachable", t.tick);
    }
  }

  lemma BackoffSkipBooks(r: Run, t: Tick, name: string)
    requires InBackoff(r.ledger, name, t.tick).Some?
    ensures Books(r, Skip(r, name, "backoff"), t)
  {
    hide InBackoff, Books, Reason, LastProbe;
    SkipBooks(r, t, name, "backoff");
  }

  lemma MismatchSkipBooks(r: Run, t: Tick, name: string)
    requires var p := LastProbe(t, name); p.reachable && p.hostname != "" && p.hostname != name
    ensures Books(r, Skip(r, name, "name-mismatch"), t)
  {
    hide InBackoff, Books, Reason, LastProbe;
    SkipBooks(r, t, name, "name-mismatch");
  }

  lemma MissingSkipBooks(r: Run, t: Tick, name: string)
    requires var p := LastProbe(t, name); p.reachable && (p.hostname == "" || p.hostname == name) && !p.boxup
    ensures Books(r, Skip(r, name, "boxup-missing"), t)
  {
    hide InBackoff, Books, Reason, LastProbe;
    SkipBooks(r, t, name, "boxup-missing");
  }

  lemma {:induction false} AdoptLoopBooks(r: Run, t: Tick, names: seq<string>)
    ensures Books(r, AdoptLoop(r, t, names), t)
    decreases |names|
  {
    hide Books, InBackoff, Failed, Cleared, CanStart, Reason, Enrolled, Unreachable, SkipIsTrue, LastProbe;
    if names == [] {
      SameBooks(r, r, t);
    } else {
      var name, end := names[0], AdoptLoop(r, t, names);
      var (u, p) := Probed(r, t, name);
      ProbedIsLast(r, t, name);
      SameBooks(r, u, t);
      if InBackoff(r.ledger, name, t.tick).Some? {
        BackoffSkipBooks(r, t, name);
        AdoptLoopBooks(Skip(r, name, "backoff"), t, names[1..]);
        BooksCompose(r, Skip(r, name, "backoff"), end, t);
      } else if !CanStart(r, Adopt, PROBE_MS) {
        SameBooks(r, r, t);
      } else {
        if !p.reachable {
          UnreachableBooks(u, t, name);
          AdoptLoopBooks(Unreachable(u, name, t.tick), t, names[1..]);
          UnreachableCallsNone(u, name, t.tick);
          BooksCompose(u, Unreachable(u, name, t.tick), end, t);
        } else if p.hostname != "" && p.hostname != name {
          MismatchSkipBooks(u, t, name);
          AdoptLoopBooks(Skip(u, name, "name-mismatch"), t, names[1..]);
          BooksCompose(u, Skip(u, name, "name-mismatch"), end, t);
        } else if !p.boxup {
          MissingSkipBooks(u, t, name);
          AdoptLoopBooks(Skip(u, name, "boxup-missing"), t, names[1..]);
          BooksCompose(u, Skip(u, name, "boxup-missing"), end, t);
        } else if !t.apply {
          AdoptLoopBooks(u, t, names[1..]);
        } else if u.slotUsed {
          SameBooks(u, u, t);
        } else {
          EnrolledBooks(u, t, name, false);
        }
        BooksCompose(r, u, end, t);
      }
    }
  }

  lemma ProbedIsLast(r: Run, t: Tick, name: string)
    ensures var (u, p) := Probed(r, t, name);
            p == LastProbe(t, name) && u.calls == r.calls && u.skipped == r.skipped && u.ledger == r.ledger
  {
  }

  lemma UnreachableCallsNone(r: Run, name: string, tick: int)
    ensures Unreachable(r, name, tick).calls == r.calls
  {
  }

  lemma {:induction false} RepairLoopBooks(r: Run, t: Tick, items: seq<Item>)
    ensures Books(r, RepairLoop(r, t, items), t)
    decreases |items|
  {
    hide Books, InBackoff, Failed, Cleared, CanStart, Reason, Enrolled, Unreachable, SkipIsTrue, LastProbe;
    SameBooks(r, r, t);
    if items != [] {
      var box, end := items[0].name, RepairLoop(r, t, items);
      var u, v := Spent(r, Repair, t.inspect(box).ms), Spent(r, Repair, t.enrol(box).ms);
      SameBooks(r, u, t);
      SameBooks(r, v, t);
      if r.slotUsed {
      } else if InBackoff(r.ledger, box, t.tick).Some? {
        BackoffSkipBooks(r, t, box);
        RepairLoopBooks(Skip(r, box, "backoff"), t, items[1..]);
        BooksCompose(r, Skip(r, box, "backoff"), end, t);
      } else if !CanStart(r, Repair, PROBE_MS) {
      } else if items[0].resume {
        if t.apply {
          EnrolledBooks(v, t, box, false);
          BooksCompose(r, v, end, t);
        } else {
          RepairLoopBooks(r, t, items[1..]);
        }
      } else {
        if !t.inspect(box).ok {
          UnreachableBooks(u, t, box);
          RepairLoopBooks(Unreachable(u, box, t.tick), t, items[1..]);
          UnreachableCallsNone(u, box, t.tick);
          BooksCompose(u, Unreachable(u, box, t.tick), end, t);
        } else if t.inspect(box).coherent || !t.apply {
          RepairLoopBooks(u, t, items[1..]);
        } else {
          EnrolledBooks(u, t, box, true);
        }
        BooksCompose(r, u, end, t);
      }
    }
  }

  lemma {:induction false} SkipAllBooks(r: Run, t: Tick, names: seq<string>, reason: string)
    requires (reason == "no-api-token" && !t.apiToken) || (reason == "no-box-password" && t.apiToken && !t.password)
    ensures Books(r, SkipAll(r, names, reason), t)
    decreases |names|
  {
    hide Books, InBackoff, Reason, LastProbe;
    if names == [] {
      SameBooks(r, r, t);
    } else {
      SkipBooks(r, t, names[0], reason);
      SkipAllBooks(Skip(r, names[0], reason), t, names[1..], reason);
      BooksCompose(r, Skip(r, names[0], reason), SkipAll(r, names, reason), t);
    }
  }

  lemma AdoptPassBooks(r: Run, t: Tick, m: Markers)
    requires r.skipped == []
    ensures Books(r.(skipped := if t.readonly then [] else t.noted), AdoptPass(r, t, m), t)
  {
    var start := r.(skipped := if t.readonly then [] else t.noted);
    var u := Spent(r, Shared, t.listMs).(skipped := r.skipped + t.noted);
    assert r.skipped + t.noted == t.noted;
    hide Books, AdoptLoop, SkipAll, RepairPending, EnrolPending;
    if t.readonly {
      SameBooks(start, r, t);
    } else {
      SameBooks(start, u, t);
      if t.candidates != [] && !t.apiToken {
        SkipAllBooks(u, t, t.candidates, "no-api-token");
      } else if t.candidates != [] && !t.password {
        SkipAllBooks(u, t, t.candidates, "no-box-password");
      } else {
        AdoptLoopBooks(u, t, t.candidates);
        SameBooks(u, u, t);
      }
      BooksCompose(start, u, AdoptPass(r, t, m), t);
    }
  }

  lemma RepairPassBooks(r: Run, t: Tick, m: Markers)
    ensures Books(r, RepairPass(r, t, m), t)
  {
    var (repairs, resumes) := DueItems(r, t, m);
    hide Books, RepairLoop, SkipAll, RepairItems, ResumeItems, Order, Names;
    SameBooks(r, r, t);
    if !t.apiToken {
      SkipAllBooks(r, t, Names(repairs + resumes), "no-api-token");
    } else if !t.password {
      SkipAllBooks(r, t, Names(repairs + resumes), "no-box-password");
    } else {
      RepairLoopBooks(r, t, Order(repairs, resumes, t.tick));
    }
  }

  /** A failure closes the door for exactly as many ticks as its count gives, and changes
      nothing for another name. */
  lemma ShutForTheWindow(l: seq<Record>, name: string, reason: string, tick: int, later: int)
    ensures var k := Failed(l, name, reason, tick);
            InBackoff(k, name, later)
            == if later < tick + BackoffTicks(Failures(l, name) + 1) then Some(Failures(l, name) + 1) else None
    ensures forall other: string ::
              other != name ==> InBackoff(Failed(l, name, reason, tick), other, later) == InBackoff(l, other, later)
  {
    FindFailed(l, name, reason, tick, name);
    forall other: string | other != name
      ensures InBackoff(Failed(l, name, reason, tick), other, later) == InBackoff(l, other, later)
    {
      FindFailed(l, name, reason, tick, other);
    }
    hide Failed, Find, BackoffTicks;
  }

  /** What a tick books: a box enrolled with success has no record, one enrolled without has
      one failure more, of this tick and with its reason, so has a box that was found
      unreachable, and no other record changes. And every skip it tells of is true. */
  lemma TickBooks(ledger: seq<Record>, t: Tick, m: Markers, stamped: Markers)
    ensures Books(Fresh(ledger).(skipped := if t.readonly then [] else t.noted), BothPasses(ledger, t, m, stamped), t)
  {
    var start := Fresh(ledger).(skipped := if t.readonly then [] else t.noted);
    var a := AdoptPass(Fresh(ledger), t, m);
    var b := RepairPass(a, t, stamped);
    AdoptPassBooks(Fresh(ledger), t, m);
    RepairPassBooks(a, t, stamped);
    hide Books, AdoptPass;
    AdoptPassCallsOnce(ledger, t, m);
    if a.calls != [] {
      var (repairs, resumes) := DueItems(a, t, stamped);
      UsedSlotEndsIt(a, t, Order(repairs, resumes, t.tick));
      assert b == a;
    }
    BooksCompose(start, a, b, t);
  }

  lemma AdoptPassCallsOnce(ledger: seq<Record>, t: Tick, m: Markers)
    ensures var a := AdoptPass(Fresh(ledger), t, m);
            OneCall(a) && (a.calls != [] ==> t.apiToken && t.password)
  {
    var u := Spent(Fresh(ledger), Shared, t.listMs).(skipped := Fresh(ledger).skipped + t.noted);
    hide AdoptLoop, RepairPending, EnrolPending, SkipAll;
    SkipAllKeeps(u, t.candidates, "no-api-token");
    SkipAllKeeps(u, t.candidates, "no-box-password");
    AdoptLoopCallsOnce(u, t, t.candidates);
  }

  /** The first candidate behind ones in backoff, if it cannot be reached, is booked. */
  lemma {:induction false} FirstInTurnIsBooked(r: Run, t: Tick, names: seq<string>, k: nat)
    requires k < |names| && CanStart(r, Adopt, PROBE_MS) && !LastProbe(t, names[k]).reachable
    requires InBackoff(r.ledger, names[k], t.tick).None?
    requires forall j :: 0 <= j < k ==> InBackoff(r.ledger, names[j], t.tick).Some?
    ensures (names[k], "unreachable") in AdoptLoop(r, t, names).skipped
    decreases k
  {
    hide InBackoff, Failed, Cleared, Reason, LastProbe, Books;
    if k > 0 {
      assert InBackoff(r.ledger, names[0], t.tick).Some?;
      FirstInTurnIsBooked(Skip(r, names[0], "backoff"), t, names[1..], k - 1);
    } else {
      var (u, p) := Probed(r, t, names[0]);
      ProbedIsLast(r, t, names[0]);
      var v := Unreachable(u, names[0], t.tick);
      AdoptLoopBooks(v, t, names[1..]);
      SaidStays(v, AdoptLoop(v, t, names[1..]), t, (names[0], "unreachable"));
    }
  }

  lemma SaidStays(r: Run, u: Run, t: Tick, x: (string, string))
    requires Books(r, u, t) && x in r.skipped
    ensures x in u.skipped
  {
    hide Find, InBackoff, SkipIsTrue;
  }

  /** So is the first due member behind ones in backoff, if it cannot be inspected. */
  lemma {:induction false} FirstInTurnIsInspected(r: Run, t: Tick, items: seq<Item>, k: nat)
    requires k < |items| && !r.slotUsed && CanStart(r, Repair, PROBE_MS)
    requires !items[k].resume && !t.inspect(items[k].name).ok && InBackoff(r.ledger, items[k].name, t.tick).None?
    requires forall j :: 0 <= j < k ==> InBackoff(r.ledger, items[j].name, t.tick).Some?
    ensures (items[k].name, "unreachable") in RepairLoop(r, t, items).skipped
    decreases k
  {
    hide InBackoff, Failed, Cleared, Reason, LastProbe, Books;
    if k > 0 {
      assert InBackoff(r.ledger, items[0].name, t.tick).Some?;
      FirstInTurnIsInspected(Skip(r, items[0].name, "backoff"), t, items[1..], k - 1);
    } else {
      var v := Unreachable(Spent(r, Repair, t.inspect(items[0].name).ms), items[0].name, t.tick);
      RepairLoopBooks(v, t, items[1..]);
      SaidStays(v, RepairLoop(v, t, items[1..]), t, (items[0].name, "unreachable"));
    }
  }

  // ----- nobody is passed over in silence -----

  predicate IsTold(u: Run, name: string) {
    exists k | 0 <= k < |u.skipped| :: u.skipped[k].0 == name
  }

  /** The pass has a reason on record for this candidate, or only looks and finds it fit. */
  predicate Answered(u: Run, t: Tick, name: string) {
    IsTold(u, name) || (!t.apply && Fit(LastProbe(t, name), name))
  }

  /** The candidates before place h are answered for, and there the pass ends: with the last
      one, for want of time, or with the call that the one at h gets. */
  ghost predicate AdoptEndsAt(u: Run, t: Tick, names: seq<string>, h: nat) {
    && h <= |names| && (forall i :: 0 <= i < h ==> Answered(u, t, names[i]))
    && (h == |names| || !CanStart(u, Adopt, PROBE_MS) || u.calls == [names[h]])
  }

  lemma OneMoreAnswered(v: Run, u: Run, t: Tick, names: seq<string>)
    requires names != [] && Answered(v, t, names[0]) && Books(v, u, t)
    requires exists h: nat :: AdoptEndsAt(u, t, names[1..], h)
    ensures exists h: nat :: AdoptEndsAt(u, t, names, h)
  {
    var h: nat :| AdoptEndsAt(u, t, names[1..], h);
    hide LastProbe, Find, InBackoff, SkipIsTrue, Fit;
    assert IsTold(v, names[0]) ==> IsTold(u, names[0]);
    hide IsTold;
    forall i | 0 <= i < h + 1 ensures Answered(u, t, names[i]) {
      assert i > 0 ==> names[i] == names[1..][i - 1];
    }
    assert AdoptEndsAt(u, t, names, h + 1);
  }

  lemma SkipTells(r: Run, name: string, reason: string)
    ensures IsTold(Skip(r, name, reason), name)
  {
    assert Skip(r, name, reason).skipped[|r.skipped|].0 == name;
  }

  /** No candidate is passed over in silence. */
  lemma {:induction false} AdoptLoopAnswers(r: Run, t: Tick, names: seq<string>)
    requires r.calls == [] && !r.slotUsed
    ensures exists h: nat :: AdoptEndsAt(AdoptLoop(r, t, names), t, names, h)
    decreases |names|, 1
  {
    hide InBackoff, Failed, Cleared, CanStart, Reason, LastProbe, IsTold, Books;
    var end := AdoptLoop(r, t, names);
    if names == [] {
      assert AdoptEndsAt(end, t, names, 0);
    } else {
      var name := names[0];
      if InBackoff(r.ledger, name, t.tick).Some? {
        SkipTells(r, name, "backoff");
        AdoptGoesOn(r, Skip(r, name, "backoff"), t, names);
      } else if !CanStart(r, Adopt, PROBE_MS) {
        assert AdoptEndsAt(end, t, names, 0);
      } else {
        var (u, p) := Probed(r, t, name);
        ProbedIsLast(r, t, name);
        if !p.reachable {
          SkipTells(u.(ledger := Failed(u.ledger, name, "unreachable", t.tick)), name, "unreachable");
          AdoptGoesOn(r, Unreachable(u, name, t.tick), t, names);
        } else if p.hostname != "" && p.hostname != name {
          SkipTells(u, name, "name-mismatch");
          AdoptGoesOn(r, Skip(u, name, "name-mismatch"), t, names);
        } else if !p.boxup {
          SkipTells(u, name, "boxup-missing");
          AdoptGoesOn(r, Skip(u, name, "boxup-missing"), t, names);
        } else if !t.apply {
          AdoptGoesOn(r, u, t, names);
        } else {
          assert AdoptEndsAt(end, t, names, 0);
        }
      }
    }
  }

  lemma AdoptGoesOn(r: Run, v: Run, t: Tick, names: seq<string>)
    requires names != [] && v.calls == [] && !v.slotUsed && Answered(v, t, names[0])
    requires AdoptLoop(r, t, names) == AdoptLoop(v, t, names[1..])
    ensures exists h: nat :: AdoptEndsAt(AdoptLoop(r, t, names), t, names, h)
    decreases |names|, 0
  {
    hide AdoptLoop, Answered, Books, AdoptEndsAt;
    AdoptLoopAnswers(v, t, names[1..]);
    AdoptLoopBooks(v, t, names[1..]);
    OneMoreAnswered(v, AdoptLoop(v, t, names[1..]), t, names);
  }

  /** The pass has a reason on record for this item, or only looks and would have resumed it,
      or inspected the box and found it in order, or would have repaired it. */
  predicate Handled(u: Run, t: Tick, item: Item) {
    || IsTold(u, item.name)
    || (!t.apply && (item.resume || t.inspect(item.name).ok))
    || (!item.resume && t.inspect(item.name).ok && t.inspect(item.name).coherent)
  }

  ghost predicate RepairEndsAt(u: Run, t: Tick, items: seq<Item>, h: nat) {
    && h <= |items| && (forall i :: 0 <= i < h ==> Handled(u, t, items[i]))
    && (h == |items| || !CanStart(u, Repair, PROBE_MS) || u.calls == [items[h].name])
  }

  lemma OneMoreHandled(v: Run, u: Run, t: Tick, items: seq<Item>)
    requires items != [] && Handled(v, t, items[0]) && Books(v, u, t)
    requires exists h: nat :: RepairEndsAt(u, t, items[1..], h)
    ensures exists h: nat :: RepairEndsAt(u, t, items, h)
  {
    var h: nat :| RepairEndsAt(u, t, items[1..], h);
    hide LastProbe, Find, InBackoff, SkipIsTrue, Fit;
    assert IsTold(v, items[0].name) ==> IsTold(u, items[0].name);
    hide IsTold;
    forall i | 0 <= i < h + 1 ensures Handled(u, t, items[i]) {
      assert i > 0 ==> items[i] == items[1..][i - 1];
    }
    assert RepairEndsAt(u, t, items, h + 1);
  }

  lemma {:induction false} RepairLoopHandles(r: Run, t: Tick, items: seq<Item>)
    requires r.calls == [] && !r.slotUsed
    ensures exists h: nat :: RepairEndsAt(RepairLoop(r, t, items), t, items, h)
    decreases |items|, 1
  {
    hide InBackoff, Failed, Cleared, CanStart, Reason, IsTold, Books;
    var end := RepairLoop(r, t, items);
    if items == [] {
      assert RepairEndsAt(end, t, items, 0);
    } else {
      var box := items[0].name;
      var u := Spent(r, Repair, t.inspect(box).ms);
      if InBackoff(r.ledger, box, t.tick).Some? {
        SkipTells(r, box, "backoff");
        RepairGoesOn(r, Skip(r, box, "backoff"), t, items);
      } else if !CanStart(r, Repair, PROBE_MS) {
        assert RepairEndsAt(end, t, items, 0);
      } else if items[0].resume && !t.apply {
        RepairGoesOn(r, r, t, items);
      } else if !items[0].resume && !t.inspect(box).ok {
        SkipTells(u.(ledger := Failed(u.ledger, box, "unreachable", t.tick)), box, "unreachable");
        RepairGoesOn(r, Unreachable(u, box, t.tick), t, items);
      } else if !items[0].resume && (t.inspect(box).coherent || !t.apply) {
        RepairGoesOn(r, u, t, items);
      } else {
        assert RepairEndsAt(end, t, items, 0);
      }
    }
  }

  lemma RepairGoesOn(r: Run, v: Run, t: Tick, items: seq<Item>)
    requires items != [] && v.calls == [] && !v.slotUsed && Handled(v, t, items[0])
    requires RepairLoop(r, t, items) == RepairLoop(v, t, items[1..])
    ensures exists h: nat :: RepairEndsAt(RepairLoop(r, t, items), t, items, h)
    decreases |items|, 0
  {
    hide RepairLoop, Handled, Books, RepairEndsAt;
    RepairLoopHandles(v, t, items[1..]);
    RepairLoopBooks(v, t, items[1..]);
    OneMoreHandled(v, RepairLoop(v, t, items[1..]), t, items);
  }

  lemma {:induction false} SkipAllTells(r: Run, names: seq<string>, reason: string)
    ensures var u := SkipAll(r, names, reason);
            r.skipped <= u.skipped && forall i :: 0 <= i < |names| ==> IsTold(u, names[i])
    decreases |names|
  {
    if names != [] {
      var v := Skip(r, names[0], reason);
      SkipAllTells(v, names[1..], reason);
      var u := SkipAll(r, names, reason);
      assert u.skipped[|r.skipped|].0 == names[0];
      forall i | 0 <= i < |names| ensures IsTold(u, names[i]) {
        assert i > 0 ==> names[i] == names[1..][i - 1];
      }
    }
  }

  /** No box is passed over in silence. Without the token or the password every candidate and
      every item has a reason on record. With them, and with nothing to yield to, the adopt
      pass answers for its candidates one after another until a call or the end of its time;
      and so does the repair pass for its items if the slot is left to it. */
  lemma NobodyIsPassedOver(ledger: seq<Record>, t: Tick, m: Markers, stamped: Markers)
    requires !t.readonly
    ensures var a, u := AdoptPass(Fresh(ledger), t, m), BothPasses(ledger, t, m, stamped);
            var (repairs, resumes) := DueItems(a, t, stamped);
            var items := Order(repairs, resumes, t.tick);
            && a.skipped <= u.skipped
            && (!t.apiToken || !t.password ==>
                  && (forall i :: 0 <= i < |t.candidates| ==> IsTold(a, t.candidates[i]))
                  && (forall i :: 0 <= i < |items| ==> IsTold(u, items[i].name)))
            && (t.apiToken && t.password && !RepairPending(t, m) && !EnrolPending(t.before, ledger, t.tick) ==>
                  exists h: nat :: AdoptEndsAt(a, t, t.candidates, h))
            && (t.apiToken && t.password && a.calls == [] ==>
                  exists h: nat :: RepairEndsAt(u, t, items, h))
  {
    var start := Spent(Fresh(ledger), Shared, t.listMs).(skipped := Fresh(ledger).skipped + t.noted);
    AdoptLoopAnswers(start, t, t.candidates);
    SkipAllTells(start, t.candidates, "no-api-token");
    SkipAllTells(start, t.candidates, "no-box-password");
    AdoptPassCallsOnce(ledger, t, m);
    RepairPassHandles(AdoptPass(Fresh(ledger), t, m), t, stamped);
    hide AdoptLoop, RepairPass, RepairPending, EnrolPending, SkipAll, IsTold, DueItems, Order, RepairEndsAt, CanStart;
    assert t.candidates == [] ==> AdoptEndsAt(start, t, t.candidates, 0);
  }

  lemma RepairPassHandles(a: Run, t: Tick, stamped: Markers)
    requires !t.readonly && OneCall(a)
    ensures var u := RepairPass(a, t, stamped);
            var (repairs, resumes) := DueItems(a, t, stamped);
            var items := Order(repairs, resumes, t.tick);
            && a.skipped <= u.skipped
            && (!t.apiToken || !t.password ==> forall i :: 0 <= i < |items| ==> IsTold(u, items[i].name))
            && (t.apiToken && t.password && a.calls == [] ==> exists h: nat :: RepairEndsAt(u, t, items, h))
  {
    var (repairs, resumes) := DueItems(a, t, stamped);
    var items, listed := Order(repairs, resumes, t.tick), repairs + resumes;
    hide DueItems, IsTold, CanStart, Handled;
    if a.calls == [] {
      RepairLoopHandles(a, t, items);
    }
    RepairLoopBooks(a, t, items);
    SkipAllTells(a, Names(listed), "no-api-token");
    SkipAllTells(a, Names(listed), "no-box-password");
    forall i | 0 <= i < |items| ensures exists k :: 0 <= k < |listed| && listed[k] == items[i] {
      assert items[i] in repairs || items[i] in resumes;
      assert items[i] in listed;
    }
    NamesAre(listed);
    assert items == [] ==> RepairEndsAt(a, t, items, 0);
    hide Find, InBackoff, SkipIsTrue, RepairLoop, SkipAll, RepairEndsAt;
  }

  lemma {:induction false} NamesAre(items: seq<Item>)
    ensures |Names(items)| == |items| && forall i :: 0 <= i < |items| ==> Names(items)[i] == items[i].name
  {
    if items != [] {
      NamesAre(items[1..]);
    }
  }

  /** The ticks that must pass before a name can have failed `f` times in a row. */
  function Span(f: nat): nat {
    if f <= 1 then 0 else Span(f - 1) + BackoffTicks(f - 1)
  }

  /** Every streak on record began no earlier than `start`, and its failures were
      spaced by the schedule. */
  ghost predicate Spaced(l: seq<Record>, start: int) {
    forall name: string :: Find(l, name).Some? ==>
      Find(l, name).value.failures >= 1 && Find(l, name).value.lastTick >= start + Span(Find(l, name).value.failures)
  }

  lemma StepKeepsSpaced(l: seq<Record>, k: seq<Record>, tick: int, start: int)
    requires Spaced(l, start) && StepOk(l, k, tick) && tick >= start
    ensures Spaced(k, start)
  {
    hide Find, BackoffTicks;
    forall name: string | Find(k, name).Some?
      ensures Find(k, name).value.failures >= 1
              && Find(k, name).value.lastTick >= start + Span(Find(k, name).value.failures)
    {
      assert Advanced(Find(l, name), Find(k, name), tick);
    }
  }

  // ----- keeping the ledger small -----

  function Young(l: seq<Record>, tick: int): seq<Record> {
    if l == [] then []
    else (if tick - l[0].lastTick <= PRUNE_TICKS then [l[0]] else []) + Young(l[1..], tick)
  }

  /** Most recently tried first; ties keep their order. */
  function Insert(r: Record, l: seq<Record>): (s: seq<Record>)
    ensures |s| == |l| + 1
  {
    if l == [] || r.lastTick >= l[0].lastTick then [r] + l else [l[0]] + Insert(r, l[1..])
  }

  function Sorted(l: seq<Record>): (s: seq<Record>)
    ensures |s| == |l|
  {
    if l == [] then [] else Insert(l[0], Sorted(l[1..]))
  }

  /** `finish`. */
  function Finished(l: seq<Record>, tick: int): seq<Record> {
    var young := Young(l, tick);
    if |young| > MAX_RECORDS then Sorted(young)[..MAX_RECORDS] else young
  }

  ghost predicate NamesDistinct(l: seq<Record>) {
    forall i, j :: 0 <= i < j < |l| ==> l[i].name != l[j].name
  }

  lemma {:induction false} FindYoung(l: seq<Record>, tick: int, name: string)
    requires NamesDistinct(l)
    ensures Find(Young(l, tick), name)
            == if Find(l, name).Some? && tick - Find(l, name).value.lastTick > PRUNE_TICKS then None else Find(l, name)
  {
    if l != [] {
      FindYoung(l[1..], tick, name);
      if l[0].name == name {
        AbsentFromRest(l, name);
      }
      var rest := Young(l[1..], tick);
      assert [] + rest == rest && ([l[0]] + rest)[1..] == rest;
    }
  }

  lemma {:induction false} AbsentFromRest(l: seq<Record>, name: string)
    requires l != [] && NamesDistinct(l) && l[0].name == name
    ensures Find(l[1..], name).None?
  {
    FindAbsent(l[1..], name);
  }

  lemma {:induction false} FindAbsent(l: seq<Record>, name: string)
    requires forall i :: 0 <= i < |l| ==> l[i].name != name
    ensures Find(l, name).None?
  {
    if l != [] {
      FindAbsent(l[1..], name);
    }
  }

  /** The age prune never changes a verdict, now or on any later tick. */
  lemma PruneChangesNoVerdict(l: seq<Record>, tick: int, later: int, name: string)
    requires NamesDistinct(l) && later >= tick
    ensures InBackoff(Young(l, tick), name, later) == InBackoff(l, name, later)
  {
    FindYoung(l, tick, name);
    hide Find, Young, BackoffTicks;
    if Find(l, name).Some? {
      BackoffIsBounded(Find(l, name).value.failures);
    }
  }

  ghost predicate Descending(l: seq<Record>) {
    forall i, j :: 0 <= i < j < |l| ==> l[i].lastTick >= l[j].lastTick
  }

  lemma {:induction false} InsertAdds(r: Record, l: seq<Record>)
    ensures multiset(Insert(r, l)) == multiset(l) + multiset{r}
  {
    if l != [] && r.lastTick < l[0].lastTick {
      InsertAdds(r, l[1..]);
      assert l == [l[0]] + l[1..];
    } else {
      assert multiset([r] + l) == multiset{r} + multiset(l);
    }
  }

  lemma {:induction false} InsertSorts(r: Record, l: seq<Record>)
    requires Descending(l)
    ensures Descending(Insert(r, l))
    ensures Insert(r, l)[0] == r || (l != [] && Insert(r, l)[0] == l[0])
  {
    if l != [] && r.lastTick < l[0].lastTick {
      InsertSorts(r, l[1..]);
    }
  }

  lemma {:induction false} SortedSorts(l: seq<Record>)
    ensures Descending(Sorted(l)) && multiset(Sorted(l)) == multiset(l)
  {
    if l != [] {
      SortedSorts(l[1..]);
      InsertSorts(l[0], Sorted(l[1..]));
      InsertAdds(l[0], Sorted(l[1..]));
      assert l == [l[0]] + l[1..];
    }
  }

  lemma PrefixIsLatest(s: seq<Record>, n: nat)
    requires Descending(s) && n <= |s|
    ensures multiset(s[..n]) + multiset(s[n..]) == multiset(s)
    ensures forall k, d :: k in s[..n] && d in s[n..] ==> k.lastTick >= d.lastTick
  {
    assert s == s[..n] + s[n..];
  }

  /** The size cap drops only records no more recently tried than any it keeps. */
  lemma CapDropsTheOldest(l: seq<Record>, tick: int)
    requires |Young(l, tick)| > MAX_RECORDS
    ensures |Finished(l, tick)| == MAX_RECORDS
    ensures exists dropped: seq<Record> ::
              && multiset(Finished(l, tick)) + multiset(dropped) == multiset(Young(l, tick))
              && forall k, d :: k in Finished(l, tick) && d in dropped ==> k.lastTick >= d.lastTick
  {
    var young := Young(l, tick);
    var s := Sorted(young);
    SortedSorts(young);
    assert |multiset(s)| == |s| && |multiset(young)| == |young|;
    hide Sorted, Young;
    assert Finished(l, tick) == s[..MAX_RECORDS];
    PrefixIsLatest(s, MAX_RECORDS);
    hide Descending, Finished;
    assert multiset(s[..MAX_RECORDS]) + multiset(s[MAX_RECORDS..]) == multiset(young);
  }

  // ----- over many ticks -----

  datatype Facts = Facts(t: Tick, m: Markers, stamped: Markers)

  function LedgerAfter(l: seq<Record>, f: Facts): seq<Record> {
    Finished(BothPasses(l, f.t, f.m, f.stamped).ledger, f.t.tick)
  }

  /** The ledger after these ticks. */
  function Ledger(l: seq<Record>, ticks: seq<Facts>): seq<Record> {
    if ticks == [] then l else LedgerAfter(Ledger(l, ticks[..|ticks| - 1]), ticks[|ticks| - 1])
  }

  lemma {:induction false} FindIsMember(l: seq<Record>, name: string)
    ensures Find(l, name).Some? ==> Find(l, name).value in l && Find(l, name).value.name == name
  {
    if l != [] {
      FindIsMember(l[1..], name);
    }
  }

  lemma {:induction false} MemberIsFound(l: seq<Record>, r: Record)
    requires NamesDistinct(l) && r in l
    ensures Find(l, r.name) == Some(r)
  {
    if l[0] != r {
      assert r in l[1..];
      var i :| 0 <= i < |l[1..]| && l[1..][i] == r;
      assert l[i + 1] == r;
      MemberIsFound(l[1..], r);
    }
  }

  /** Any part of a spaced ledger is spaced. */
  lemma PartIsSpaced(l: seq<Record>, k: seq<Record>, start: int)
    requires NamesDistinct(l) && Spaced(l, start) && forall r :: r in k ==> r in l
    ensures Spaced(k, start)
  {
    forall name: string | Find(k, name).Some?
      ensures Find(k, name).value.failures >= 1
              && Find(k, name).value.lastTick >= start + Span(Find(k, name).value.failures)
    {
      FindIsMember(k, name);
      MemberIsFound(l, Find(k, name).value);
    }
  }

  lemma {:induction false} YoungIsPart(l: seq<Record>, tick: int)
    requires NamesDistinct(l)
    ensures NamesDistinct(Young(l, tick)) && forall r :: r in Young(l, tick) ==> r in l
  {
    if l != [] {
      YoungIsPart(l[1..], tick);
      var rest := Young(l[1..], tick);
      forall i | 0 <= i < |rest| ensures rest[i].name != l[0].name {
        assert rest[i] in l[1..];
      }
    }
  }

  lemma {:induction false} InsertKeepsNames(r: Record, l: seq<Record>)
    requires NamesDistinct(l) && forall q :: q in l ==> q.name != r.name
    ensures NamesDistinct(Insert(r, l)) && forall q :: q in Insert(r, l) <==> q == r || q in l
  {
    if l != [] && r.lastTick < l[0].lastTick {
      InsertKeepsNames(r, l[1..]);
      var rest := Insert(r, l[1..]);
      forall i | 0 <= i < |rest| ensures rest[i].name != l[0].name {
        assert rest[i] in rest;
      }
    }
  }

  lemma {:induction false} SortedIsPart(l: seq<Record>)
    requires NamesDistinct(l)
    ensures NamesDistinct(Sorted(l)) && forall r :: r in Sorted(l) <==> r in l
  {
    if l != [] {
      SortedIsPart(l[1..]);
      InsertKeepsNames(l[0], Sorted(l[1..]));
    }
  }

  lemma FinishedIsPart(l: seq<Record>, tick: int)
    requires NamesDistinct(l)
    ensures NamesDistinct(Finished(l, tick)) && forall r :: r in Finished(l, tick) ==> r in l
  {
    YoungIsPart(l, tick);
    SortedIsPart(Young(l, tick));
    hide Young, Sorted;
  }

  /** Over every run of ticks from an empty ledger there is one record a name, and a
      record with `f` failures in a row proves that at least the `f - 1` backoff
      windows have passed since the run began. */
  lemma {:induction false} ScheduleHolds(ticks: seq<Facts>, start: int)
    requires forall i :: 0 <= i < |ticks| ==> ticks[i].t.tick >= start
    ensures NamesDistinct(Ledger([], ticks)) && Spaced(Ledger([], ticks), start)
  {
    if ticks != [] {
      var n := |ticks| - 1;
      var l, f := Ledger([], ticks[..n]), ticks[n];
      ScheduleHolds(ticks[..n], start);
      TickRespectsBackoff(l, f.t, f.m, f.stamped);
      var k := BothPasses(l, f.t, f.m, f.stamped).ledger;
      hide BothPasses, Finished;
      StepKeepsSpaced(l, k, f.t.tick, start);
      FinishedIsPart(k, f.t.tick);
      PartIsSpaced(k, Finished(k, f.t.tick), start);
    }
  }

  /** The size cap does not bite on any of these ticks. */
  ghost predicate NeverFull(l: seq<Record>, ticks: seq<Facts>)
    decreases |ticks|
  {
    ticks == [] ||
    var n := |ticks| - 1;
    && NeverFull(l, ticks[..n])
    && |Young(BothPasses(Ledger(l, ticks[..n]), ticks[n].t, ticks[n].m, ticks[n].stamped).ledger,
          ticks[n].t.tick)| <= MAX_RECORDS
  }

  lemma TickKeepsWindow(l: seq<Record>, f: Facts, name: string)
    requires NamesDistinct(l) && InWindow(Find(l, name), f.t.tick)
    requires |Young(BothPasses(l, f.t, f.m, f.stamped).ledger, f.t.tick)| <= MAX_RECORDS
    ensures NamesDistinct(LedgerAfter(l, f)) && Find(LedgerAfter(l, f), name) == Find(l, name)
  {
    TickRespectsBackoff(l, f.t, f.m, f.stamped);
    var k := BothPasses(l, f.t, f.m, f.stamped).ledger;
    hide BothPasses, Find, Young, Sorted, NamesDistinct, BackoffTicks;
    assert Advanced(Find(l, name), Find(k, name), f.t.tick);
    BackoffIsBounded(Find(l, name).value.failures);
    FindYoung(k, f.t.tick, name);
    FinishedIsPart(k, f.t.tick);
  }

  /** A record inside its window survives every tick of the window. */
  lemma {:induction false} WindowSurvives(l: seq<Record>, ticks: seq<Facts>, name: string)
    requires NamesDistinct(l) && NeverFull(l, ticks)
    requires forall i :: 0 <= i < |ticks| ==> InWindow(Find(l, name), ticks[i].t.tick)
    ensures NamesDistinct(Ledger(l, ticks)) && Find(Ledger(l, ticks), name) == Find(l, name)
  {
    if ticks != [] {
      var n := |ticks| - 1;
      WindowSurvives(l, ticks[..n], name);
      TickKeepsWindow(Ledger(l, ticks[..n]), ticks[n], name);
    }
  }

  /** The size cap bites on tick k of this run. */
  ghost predicate CapBites(ticks: seq<Facts>, k: nat) {
    k < |ticks| &&
    var f := ticks[k];
    |Young(BothPasses(Ledger([], ticks[..k]), f.t, f.m, f.stamped).ledger, f.t.tick)| > MAX_RECORDS
  }

  /** The record of a name after the first k ticks of a run. */
  ghost function RecordAt(ticks: seq<Facts>, k: nat, name: string): Option<Record>
    requires k <= |ticks|
  {
    Find(Ledger([], ticks[..k]), name)
  }

  lemma LedgerStep(ticks: seq<Facts>, j: nat)
    requires 0 < j <= |ticks|
    ensures Ledger([], ticks[..j]) == LedgerAfter(Ledger([], ticks[..j - 1]), ticks[j - 1])
  {
    assert ticks[..j][..j - 1] == ticks[..j - 1];
    hide LedgerAfter;
  }

  lemma {:induction false} StaysThrough(ticks: seq<Facts>, i: nat, j: nat, name: string, start: int)
    requires i <= j <= |ticks| && forall k :: 0 <= k < |ticks| ==> ticks[k].t.tick >= start
    requires forall k :: i <= k < j ==> !CapBites(ticks, k) && InWindow(RecordAt(ticks, i, name), ticks[k].t.tick)
    ensures RecordAt(ticks, j, name) == RecordAt(ticks, i, name)
    decreases j
  {
    hide InWindow, Spaced, NamesDistinct, LedgerAfter, Ledger, BothPasses, Young, Find;
    if i < j {
      StaysThrough(ticks, i, j - 1, name, start);
      ScheduleHolds(ticks[..j - 1], start);
      assert !CapBites(ticks, j - 1);
      TickKeepsWindow(Ledger([], ticks[..j - 1]), ticks[j - 1], name);
      LedgerStep(ticks, j);
    }
  }

  /** The backoff schedule, over every run with non-decreasing ticks: the record of a name
      is the same until its window is over, counted from its last failure, unless the
      size cap bit in between. So neighbouring failures of a name are a window apart. */
  lemma FailuresAreApart(ticks: seq<Facts>, i: nat, j: nat, name: string)
    requires i < j <= |ticks| && forall a, b :: 0 <= a <= b < |ticks| ==> ticks[a].t.tick <= ticks[b].t.tick
    requires RecordAt(ticks, i, name).Some? && RecordAt(ticks, j, name) != RecordAt(ticks, i, name)
    ensures var r := RecordAt(ticks, i, name).value;
            || ticks[j - 1].t.tick - r.lastTick >= BackoffTicks(r.failures)
            || exists k :: i <= k < j && CapBites(ticks, k)
  {
    var r, start := RecordAt(ticks, i, name).value, ticks[0].t.tick;
    if ticks[j - 1].t.tick - r.lastTick < BackoffTicks(r.failures) && forall k :: i <= k < j ==> !CapBites(ticks, k) {
      ScheduleHolds(ticks[..i], start);
      assert r.failures >= 1 by { assert Spaced(Ledger([], ticks[..i]), start); }
      hide RecordAt, CapBites, BackoffTicks;
      StaysThrough(ticks, i, j, name, start);
    }
  }

  /** When the cap bites, some record is forgotten, inside its window or not. */
  lemma CapForgets(l: seq<Record>, tick: int) returns (r: Record)
    requires NamesDistinct(l) && |Young(l, tick)| > MAX_RECORDS
    ensures r in Young(l, tick) && Find(l, r.name) == Some(r) && Find(Finished(l, tick), r.name).None?
  {
    YoungIsPart(l, tick);
    var young := Young(l, tick);
    SortedIsPart(young);
    var s := Sorted(young);
    hide Young, Sorted, Find;
    r := s[MAX_RECORDS];
    MemberIsFound(l, r);
    FindAbsent(s[..MAX_RECORDS], r.name);
  }

  // ----- a stuck row and the adopt slot -----

  /** A tick with the switches on and nothing but this one row to resume, whose
      enrolment fails. */
  ghost predicate OnlyRowFails(f: Facts, row: string) {
    && !f.t.readonly && f.t.apply && f.t.apiToken && f.t.password
    && f.t.before == [row] && f.t.after == [row]
    && RepairItems(f.t.membership, f.stamped, f.t.tick) == []
    && f.t.listMs + PROBE_MS <= BUDGET_MS
    && f.t.enrol(row).rc != 0
  }

  lemma RowFails(l: seq<Record>, f: Facts, row: string)
    requires OnlyRowFails(f, row) && InBackoff(l, row, f.t.tick).None?
    ensures var r := BothPasses(l, f.t, f.m, f.stamped);
            r.calls == [row] && r.ledger == Failed(l, row, Reason(f.t.enrol(row)), f.t.tick)
  {
    hide AdoptLoop, Failed, Cleared, Reason, RepairPending, Stamp, RepairItems, SkipAll;
    assert EnrolPending(f.t.before, l, f.t.tick) by {
      assert InBackoff(l, f.t.before[0], f.t.tick).None?;
    }
    hide InBackoff, EnrolPending;
    var u := Spent(Fresh(l), Shared, f.t.listMs).(skipped := Fresh(l).skipped + f.t.noted);
    assert AdoptPass(Fresh(l), f.t, f.m) == u;
    var resumes := ResumeItems(f.t.after, l, f.t.tick);
    assert ResumeItems([], l, f.t.tick) == [];
    assert f.t.after[1..] == [] && f.t.after[0] == row;
    assert resumes == [Item(row, true)];
    var none: seq<Item> := [];
    assert none + resumes == resumes && resumes + none == resumes;
    assert Order(none, resumes, f.t.tick) == resumes;
  }

  lemma FailedEntersWindow(l: seq<Record>, row: string, reason: string, tick: int)
    requires NamesDistinct(l)
    ensures var k := Young(Failed(l, row, reason, tick), tick);
            NamesDistinct(k) && Find(k, row) == Some(Record(row, Failures(l, row) + 1, reason, tick))
  {
    FindFailed(l, row, reason, tick, row);
    FailedKeepsNames(l, row, reason, tick);
    FindYoung(Failed(l, row, reason, tick), tick, row);
    YoungIsPart(Failed(l, row, reason, tick), tick);
    hide Failed, Young, Find, NamesDistinct;
  }

  lemma RowEntersWindow(l: seq<Record>, f: Facts, row: string, reason: string)
    requires NamesDistinct(l) && OnlyRowFails(f, row) && InBackoff(l, row, f.t.tick).None?
    requires NeverFull(l, [f]) && reason == Reason(f.t.enrol(row))
    ensures NamesDistinct(LedgerAfter(l, f))
    ensures Find(LedgerAfter(l, f), row) == Some(Record(row, Failures(l, row) + 1, reason, f.t.tick))
  {
    assert [f][..0] == [];
    assert |Young(BothPasses(l, f.t, f.m, f.stamped).ledger, f.t.tick)| <= MAX_RECORDS;
    hide BothPasses, Failed, Young, Find, BackoffTicks, Reason, Sorted, NeverFull, NamesDistinct, OnlyRowFails,
        InBackoff, Failures;
    RowFails(l, f, row);
    FailedEntersWindow(l, row, reason, f.t.tick);
  }

  /** A lone enrolling row that keeps failing makes adopt yield on one tick only:
      for the rest of the backoff window that this failure opens, adopt passes by
      the row. Only the size cap can end that window early. */
  lemma LoneRowYieldsOnce(l: seq<Record>, f: Facts, row: string, later: seq<Facts>, now: int)
    requires NamesDistinct(l) && OnlyRowFails(f, row) && InBackoff(l, row, f.t.tick).None?
    requires f.t.tick <= now && forall i :: 0 <= i < |later| ==> f.t.tick < later[i].t.tick <= now
    ensures EnrolPending([row], Ledger(LedgerAfter(l, f), later), now) ==>
              || now >= f.t.tick + BackoffTicks(Failures(l, row) + 1)
              || !NeverFull(l, [f]) || !NeverFull(LedgerAfter(l, f), later)
  {
    var after := LedgerAfter(l, f);
    hide NeverFull, LedgerAfter, Ledger, Reason, OnlyRowFails, InBackoff, Find, NamesDistinct, BackoffTicks,
        EnrolPending, Failures;
    if NeverFull(l, [f]) && NeverFull(after, later) && now < f.t.tick + BackoffTicks(Failures(l, row) + 1) {
      RowEntersWindow(l, f, row, Reason(f.t.enrol(row)));
      RowStaysInWindow(after, later, row, now);
    }
  }

  lemma RowStaysInWindow(l: seq<Record>, later: seq<Facts>, row: string, now: int)
    requires NamesDistinct(l) && NeverFull(l, later) && InWindow(Find(l, row), now)
    requires forall i :: 0 <= i < |later| ==> later[i].t.tick <= now
    ensures !EnrolPending([row], Ledger(l, later), now)
  {
    hide NeverFull, Ledger, Find, BackoffTicks, NamesDistinct;
    WindowSurvives(l, later, row);
  }
}
