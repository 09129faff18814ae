/** The discovery scheduler as the objects of one tick: a budget that charges time, a
    run that works through the two passes, and the markers that the membership loop
    stamps between them (fleet/src/reconcile/discover.ts, run.ts, state.ts). Each
    method is proved equal to its function in module Discover. */
module DiscoverPasses {
  import opened Wrappers
  import opened Text
  import opened Discover

  class DiscoverBudget {
    var total: nat
    var adopt: nat
    var repair: nat

    constructor ()
      ensures total == 0 && adopt == 0 && repair == 0
    {
      total, adopt, repair := 0, 0, 0;
    }

    method CanStart(side: Side, ceilingMs: nat) returns (ok: bool)
      requires side != Shared
      ensures ok <==> && total + ceilingMs <= BUDGET_MS
                      && (side == Adopt ==> adopt + ceilingMs <= ADOPT_MS)
                      && (side == Repair ==> repair + ceilingMs <= REPAIR_MS)
    {
      if total + ceilingMs > BUDGET_MS {
        return false;
      }
      var spent, share := repair, REPAIR_MS;
      if side == Adopt {
        spent, share := adopt, ADOPT_MS;
      }
      return spent + ceilingMs <= share;
    }

    method Spend(side: Side, ms: nat)
      modifies this
      ensures total == old(total) + ms
      ensures adopt == old(adopt) + (if side == Adopt then ms else 0)
      ensures repair == old(repair) + (if side == Repair then ms else 0)
    {
      total := total + ms;
      if side == Adopt {
        adopt := adopt + ms;
      } else if side == Repair {
        repair := repair + ms;
      }
    }
  }

  /** The `repair_pending_runs` markers of all boxes. */
  class RepairMarkers {
    var markers: Markers

    method Bump(box: string, tick: int)
      modifies this
      ensures var runs := if box in old(markers) then old(markers)[box].runs else 0;
              markers == old(markers)[box := Marker(runs + 1, tick)]
    {
      var runs := if box in markers then markers[box].runs else 0;
      markers := markers[box := Marker(runs + 1, tick)];
    }

    method Reset(box: string, tick: int)
      modifies this
      ensures markers == old(markers)[box := Marker(0, tick)]
    {
      markers := markers[box := Marker(0, tick)];
    }

    /** The membership loop of the tick. */
    method StampAll(members: seq<string>, incoherent: set<string>, tick: int)
      modifies this
      ensures markers == Stamp(old(markers), members, incoherent, tick)
    {
      for i := 0 to |members|
        invariant markers == Stamp(old(markers), members[..i], incoherent, tick)
      {
        assert members[..i + 1][..i] == members[..i];
        if members[i] in incoherent {
          Bump(members[i], tick);
        } else {
          Reset(members[i], tick);
        }
      }
      assert members[..|members|] == members;
    }
  }

  lemma {:induction false} FailedAt(l: seq<Record>, name: string, reason: string, tick: int, i: nat)
    requires i <= |l| && forall k :: 0 <= k < i ==> l[k].name != name
    requires i < |l| ==> l[i].name == name
    ensures Failed(l, name, reason, tick)
            == if i < |l| then l[i := Record(name, l[i].failures + 1, reason, tick)]
                else l + [Record(name, 1, reason, tick)]
  {
    if i > 0 {
      FailedAt(l[1..], name, reason, tick, i - 1);
      if i < |l| {
        var r := Record(name, l[i].failures + 1, reason, tick);
        assert l[i := r] == [l[0]] + l[1..][i - 1 := r];
      } else {
        var r := Record(name, 1, reason, tick);
        assert l + [r] == [l[0]] + (l[1..] + [r]);
      }
    } else if l != [] {
      var r := Record(name, l[0].failures + 1, reason, tick);
      assert l[0 := r] == [r] + l[1..];
    }
  }

  lemma AdoptNobody(r: Run, t: Tick)
    ensures AdoptLoop(r, t, []) == r
  {
  }

  lemma RepairNobody(r: Run, t: Tick)
    ensures RepairLoop(r, t, []) == r
  {
  }

  class DiscoverRun {
    const budget: DiscoverBudget
    var ledger: seq<Record>
    var slotUsed: bool
    var adopted: nat
    var repaired: nat
    var skipped: seq<(string, string)>
    var calls: seq<string>

    constructor (records: seq<Record>)
      ensures fresh(budget) && Abs() == Fresh(records)
    {
      budget := new DiscoverBudget();
      ledger, slotUsed, adopted, repaired, skipped, calls := records, false, 0, 0, [], [];
    }

    ghost function Abs(): Run
      reads this, budget
    {
      Run(budget.total, budget.adopt, budget.repair, ledger, slotUsed, adopted, repaired, skipped, calls)
    }

    method RecordFailure(name: string, reason: string, tick: int)
      modifies this
      ensures Abs() == old(Abs()).(ledger := Failed(old(ledger), name, reason, tick))
    {
      var i := 0;
      while i < |ledger| && ledger[i].name != name
        invariant 0 <= i <= |ledger| && forall k :: 0 <= k < i ==> ledger[k].name != name
      {
        i := i + 1;
      }
      FailedAt(ledger, name, reason, tick, i);
      if i == |ledger| {
        ledger := ledger + [Record(name, 1, reason, tick)];
      } else {
        ledger := ledger[i := Record(name, ledger[i].failures + 1, reason, tick)];
      }
    }

    method ClearFailure(name: string)
      modifies this
      ensures Abs() == old(Abs()).(ledger := Cleared(old(ledger), name))
    {
      var kept: seq<Record> := [];
      for i := 0 to |ledger|
        invariant Abs() == old(Abs()) && kept + Cleared(ledger[i..], name) == Cleared(ledger, name)
      {
        assert ledger[i..][0] == ledger[i] && ledger[i..][1..] == ledger[i + 1..];
        if ledger[i].name != name {
          kept := kept + [ledger[i]];
        }
      }
      assert ledger[|ledger|..] == [];
      ledger := kept;
    }

    method SkipName(name: string, reason: string)
      modifies this
      ensures Abs() == Skip(old(Abs()), name, reason)
    {
      skipped := skipped + [(name, reason)];
    }

    /** Without a token or a password every name is skipped and nothing is recorded. */
    method Preflight(names: seq<string>, t: Tick) returns (ok: bool)
      modifies this
      ensures ok <==> t.apiToken && t.password
      ensures Abs() == if !t.apiToken then SkipAll(old(Abs()), names, "no-api-token")
                       else if !t.password then SkipAll(old(Abs()), names, "no-box-password")
                       else old(Abs())
    {
      ok := t.apiToken && t.password;
      if !ok {
        var reason := if t.apiToken then "no-box-password" else "no-api-token";
        for i := 0 to |names|
          invariant SkipAll(Abs(), names[i..], reason) == SkipAll(old(Abs()), names, reason)
        {
          SkipName(names[i], reason);
        }
      }
    }

    /** The first member whose marker the preceding tick left live. */
    method PendingRepairBox(t: Tick, m: Markers) returns (box: Option<string>)
      ensures box.Some? <==> RepairPending(t, m)
      ensures box.Some? ==> box.value in t.membership && Pending(box.value, m, t.tick)
    {
      for i := 0 to |t.membership|
        invariant forall k :: 0 <= k < i ==> !Pending(t.membership[k], m, t.tick)
      {
        if Pending(t.membership[i], m, t.tick) {
          return Some(t.membership[i]);
        }
      }
      return None;
    }

    /** The first enrolling row that its backoff lets through. */
    method PendingEnrolRow(rows: seq<string>, tick: int) returns (row: Option<string>)
      ensures row.Some? <==> EnrolPending(rows, ledger, tick)
      ensures row.Some? ==> row.value in rows && InBackoff(ledger, row.value, tick).None?
    {
      for i := 0 to |rows|
        invariant forall k :: 0 <= k < i ==> InBackoff(ledger, rows[k], tick).Some?
      {
        if InBackoff(ledger, rows[i], tick).None? {
          return Some(rows[i]);
        }
      }
      return None;
    }

    /** What follows `deps.adopt`: a partial enrolment is a mutation too. */
    method Settle(name: string, a: Enrolment, tick: int, repair: bool)
      modifies this
      ensures Abs() == Enrolled(old(Abs()), name, a, tick, repair) && slotUsed
    {
      calls := calls + [name];
      slotUsed := true;
      if a.rc == 0 {
        if repair {
          repaired := repaired + 1;
        } else {
          adopted := adopted + 1;
        }
        ClearFailure(name);
      } else {
        RecordFailure(name, Reason(a), tick);
        SkipName(name, Reason(a));
      }
    }

    method AdoptPass(t: Tick, m: Markers)
      modifies this, budget
      ensures Abs() == Discover.AdoptPass(old(Abs()), t, m)
    {
      if t.readonly {
        return;
      }
      budget.Spend(Shared, t.listMs);
      skipped := skipped + t.noted;
      if t.candidates == [] {
        return;
      }
      var go := Preflight(t.candidates, t);
      if !go {
        return;
      }
      var pending := PendingRepairBox(t, m);
      if pending.None? {
        pending := PendingEnrolRow(t.before, t.tick);
      }
      if pending.None? {
        AdoptCandidates(t);
      }
    }

    method AdoptCandidates(t: Tick)
      modifies this, budget
      ensures Abs() == AdoptLoop(old(Abs()), t, t.candidates)
    {
      hide AdoptLoop;
      for i := 0 to |t.candidates|
        invariant AdoptLoop(Abs(), t, t.candidates[i..]) == AdoptLoop(old(Abs()), t, t.candidates)
      {
        var over := AdoptCandidate(t, t.candidates[i..]);
        if over {
          return;
        }
      }
      AdoptNobody(Abs(), t);
    }

    /** The first of these candidates; `over` if the pass ends with it. */
    method AdoptCandidate(t: Tick, names: seq<string>) returns (over: bool)
      requires names != []
      modifies this, budget
      ensures AdoptLoop(old(Abs()), t, names) == if over then Abs() else AdoptLoop(Abs(), t, names[1..])
    {
      hide InBackoff, Failed, Enrolled, Reason;
      var name := names[0];
      if InBackoff(ledger, name, t.tick).Some? {
        SkipName(name, "backoff");
        return false;
      }
      var room := budget.CanStart(Adopt, PROBE_MS);
      if !room {
        return true;
      }
      var p := t.probe(name);
      budget.Spend(Adopt, p.ms);
      if !p.reachable && p.mismatch {
        p := t.again(name);
        budget.Spend(Adopt, p.ms);
      }
      assert (Abs(), p) == Probed(old(Abs()), t, name);
      if !p.reachable {
        RecordFailure(name, "unreachable", t.tick);
        SkipName(name, "unreachable");
        return false;
      }
      if p.hostname != "" && p.hostname != name {
        SkipName(name, "name-mismatch");
        return false;
      }
      if !p.boxup {
        SkipName(name, "boxup-missing");
        return false;
      }
      if !t.apply {
        return false;
      }
      if !slotUsed {
        Settle(name, t.enrol(name), t.tick, false);
      }
      return true;
    }

    /** The members due for repair. */
    method DueRepairs(members: seq<string>, m: Markers, tick: int) returns (items: seq<Item>)
      ensures items == RepairItems(members, m, tick)
    {
      hide RepairDue;
      items := [];
      for i := 0 to |members|
        invariant items + RepairItems(members[i..], m, tick) == RepairItems(members, m, tick)
      {
        ghost var rest := members[i..];
        assert rest[0] == members[i] && rest[1..] == members[i + 1..];
        if RepairDue(members[i], m, tick) {
          items := items + [Item(members[i], false)];
        }
      }
    }

    /** The enrolling rows that their backoff lets through. */
    method DueResumes(rows: seq<string>, tick: int) returns (items: seq<Item>)
      ensures items == ResumeItems(rows, ledger, tick)
    {
      hide InBackoff;
      items := [];
      for i := 0 to |rows|
        invariant items + ResumeItems(rows[i..], ledger, tick) == ResumeItems(rows, ledger, tick)
      {
        ghost var rest := rows[i..];
        assert rest[0] == rows[i] && rest[1..] == rows[i + 1..];
        if InBackoff(ledger, rows[i], tick).None? {
          items := items + [Item(rows[i], true)];
        }
      }
    }

    method RepairPass(t: Tick, m: Markers)
      modifies this, budget
      ensures Abs() == Discover.RepairPass(old(Abs()), t, m)
    {
      if t.readonly {
        return;
      }
      var repairs := DueRepairs(t.membership, m, t.tick);
      var resumes := DueResumes(t.after, t.tick);
      if repairs == [] && resumes == [] {
        return;
      }
      var go := Preflight(Names(repairs + resumes), t);
      if go {
        WorkThrough(t, Order(repairs, resumes, t.tick));
      }
    }

    method WorkThrough(t: Tick, items: seq<Item>)
      modifies this, budget
      ensures Abs() == RepairLoop(old(Abs()), t, items)
    {
      hide RepairLoop;
      for i := 0 to |items|
        invariant RepairLoop(Abs(), t, items[i..]) == RepairLoop(old(Abs()), t, items)
      {
        var over := WorkOn(t, items[i..]);
        if over {
          return;
        }
      }
      RepairNobody(Abs(), t);
    }

    /** The first of these items; `over` if the pass ends with it. */
    method WorkOn(t: Tick, items: seq<Item>) returns (over: bool)
      requires items != []
      modifies this, budget
      ensures RepairLoop(old(Abs()), t, items) == if over then Abs() else RepairLoop(Abs(), t, items[1..])
    {
      hide InBackoff, Failed, Enrolled, Reason;
      var box := items[0].name;
      if slotUsed {
        return true;
      }
      if InBackoff(ledger, box, t.tick).Some? {
        SkipName(box, "backoff");
        return false;
      }
      var room := budget.CanStart(Repair, PROBE_MS);
      if !room {
        return true;
      }
      if items[0].resume {
        if t.apply {
          budget.Spend(Repair, t.enrol(box).ms);
          Settle(box, t.enrol(box), t.tick, false);
        }
        return slotUsed;
      }
      var f := t.inspect(box);
      budget.Spend(Repair, f.ms);
      if !f.ok {
        RecordFailure(box, "unreachable", t.tick);
        SkipName(box, "unreachable");
        return false;
      }
      if f.coherent || !t.apply {
        return false;
      }
      Settle(box, t.enrol(box), t.tick, true);
      return true;
    }

    /** Forget what is old, keep the most recently tried. */
    method Finish(tick: int)
      modifies this
      ensures Abs() == old(Abs()).(ledger := Finished(old(ledger), tick))
    {
      var records: seq<Record> := [];
      for i := 0 to |ledger|
        invariant Abs() == old(Abs()) && records + Young(ledger[i..], tick) == Young(ledger, tick)
      {
        assert ledger[i..][0] == ledger[i] && ledger[i..][1..] == ledger[i + 1..];
        if tick - ledger[i].lastTick <= PRUNE_TICKS {
          records := records + [ledger[i]];
        }
      }
      assert ledger[|ledger|..] == [] && records + [] == records;
      if |records| > MAX_RECORDS {
        records := Sorted(records)[..MAX_RECORDS];
      }
      ledger := records;
    }
  }

  /** One tick: adopt, stamp the members, repair, finish. At most one box is mutated,
      and the ledger and the markers are those of the tick's functions. */
  method DiscoverTick(t: Tick, ledger: seq<Record>, state: RepairMarkers, incoherent: set<string>)
    returns (records: seq<Record>, mutated: seq<string>)
    modifies state
    ensures state.markers == Stamp(old(state.markers), t.membership, incoherent, t.tick)
    ensures var f := Facts(t, old(state.markers), state.markers);
            records == LedgerAfter(ledger, f) && mutated == BothPasses(ledger, t, f.m, f.stamped).calls
    ensures |mutated| <= 1 && (mutated != [] ==> !t.readonly && t.apply && t.apiToken && t.password)
  {
    hide Discover.AdoptPass, Discover.RepairPass, Finished, Stamp;
    var run := new DiscoverRun(ledger);
    run.AdoptPass(t, state.markers);
    state.StampAll(t.membership, incoherent, t.tick);
    run.RepairPass(t, state.markers);
    OneMutationPerTick(ledger, t, old(state.markers), state.markers);
    run.Finish(t.tick);
    return run.ledger, run.calls;
  }
}
