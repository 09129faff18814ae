/** The alerts that a box's own report raises (fleet/src/reconcile/alerts.ts) and their
    throttle (fleet/src/reconcile/state.ts): one box, five kinds, and a mark per kind
    that holds back repeats until it is cleared or the renotify window is over. */
module Alerts {
  import opened Wrappers

  const RENOTIFY_SECS := 86400
  const STALE_SECS := 7200
  const STREAK := 3

  datatype Kind = DiskFail | DiskWarn | TickWedged | KeepawakeFailing | RepairFailing

  datatype Level = DiskOk | DiskLow | DiskFull | DiskUnknown

  /** A box's status line; `keepawakeLast` is none if absent or unparsable. */
  datatype Report = Report(disk: Level, tickwedge: nat, keepawakeOn: bool, keepawakeRc: Option<string>,
                           keepawakeLast: Option<int>, repairFailing: nat, refreshFailing: nat)

  /** `<first_seen> <last_sent>` */
  datatype Mark = Mark(first: int, last: int)

  datatype State = State(marks: map<Kind, Mark>, wedge: Option<nat>, streak: nat)

  const EMPTY := State(map[], None, 0)

  function MarkOf(marks: map<Kind, Mark>, k: Kind): Option<Mark> {
    if k in marks then Some(marks[k]) else None
  }

  // ----- what a tick has to say about a kind -----

  /** `Hold` neither raises nor clears. */
  datatype Signal = Raise | Clear | Hold

  predicate FailingRc(rc: Option<string>) {
    rc == Some("refused") || rc == Some("unreachable") || rc == Some("inert")
  }

  predicate Qualifies(r: Report, now: int) {
    && r.keepawakeOn && FailingRc(r.keepawakeRc)
    && r.keepawakeLast.Some? && now - r.keepawakeLast.value <= STALE_SECS
  }

  predicate RepairFails(r: Report) {
    r.repairFailing >= 3 || r.refreshFailing >= 3
  }

  /** A full disk explains a failing repair, but not a failing refresh. */
  predicate Explained(r: Report) {
    r.disk == DiskFull && r.repairFailing >= 3 && r.refreshFailing < 3
  }

  function SignalOf(s: State, r: Report, now: int, k: Kind): Signal {
    match k
    case DiskFail => if r.disk == DiskFull then Raise else Clear
    case DiskWarn => if r.disk == DiskLow then Raise else Clear
    case TickWedged => if s.wedge.None? then Hold else if r.tickwedge > s.wedge.value then Raise else Clear
    case KeepawakeFailing => if !Qualifies(r, now) then Clear else if s.streak + 1 >= STREAK then Raise else Hold
    case RepairFailing => if !RepairFails(r) then Clear else if Explained(r) then Hold else Raise
  }

  /** Shown as active; a suppressed repair failure still is. */
  predicate Active(s: State, r: Report, now: int, k: Kind) {
    SignalOf(s, r, now, k) == Raise || (k == RepairFailing && RepairFails(r))
  }

  predicate Due(m: Option<Mark>, now: int) {
    m.None? || now - m.value.last >= RENOTIFY_SECS
  }

  function MarkAfter(m: Option<Mark>, signal: Signal, now: int): Option<Mark> {
    match signal
    case Hold => m
    case Clear => None
    case Raise => if Due(m, now) then Some(Mark(if m.Some? then m.value.first else now, now)) else m
  }

  predicate Pages(s: State, r: Report, now: int, k: Kind) {
    SignalOf(s, r, now, k) == Raise && Due(MarkOf(s.marks, k), now)
  }

  function After(s: State, r: Report, now: int): State {
    State(map k: Kind | MarkAfter(MarkOf(s.marks, k), SignalOf(s, r, now, k), now).Some?
            :: MarkAfter(MarkOf(s.marks, k), SignalOf(s, r, now, k), now).value,
          Some(r.tickwedge),
          if Qualifies(r, now) then s.streak + 1 else 0)
  }

  /** In the order of CONDITION_KINDS. */
  function InOrder(full: bool, low: bool, wedged: bool, failing: bool, broken: bool): seq<Kind> {
    (if full then [DiskFail] else []) + (if low then [DiskWarn] else []) + (if wedged then [TickWedged] else [])
    + (if failing then [KeepawakeFailing] else []) + (if broken then [RepairFailing] else [])
  }

  function KindsThat(p: Kind -> bool): seq<Kind> {
    InOrder(p(DiskFail), p(DiskWarn), p(TickWedged), p(KeepawakeFailing), p(RepairFailing))
  }

  function Place(k: Kind): nat {
    match k
    case DiskFail => 0
    case DiskWarn => 1
    case TickWedged => 2
    case KeepawakeFailing => 3
    case RepairFailing => 4
  }

  function PlaceAfter(k: Kind): nat {
    match k
    case DiskFail => Place(DiskWarn)
    case DiskWarn => Place(TickWedged)
    case TickWedged => Place(KeepawakeFailing)
    case KeepawakeFailing => Place(RepairFailing)
    case RepairFailing => 5
  }

  ghost predicate InPlace(kinds: seq<Kind>, n: nat) {
    && (forall i :: 0 <= i < |kinds| ==> Place(kinds[i]) < n)
    && (forall i, j :: 0 <= i < j < |kinds| ==> Place(kinds[i]) < Place(kinds[j]))
  }

  lemma OneMoreKind(kinds: seq<Kind>, k: Kind, holds: bool)
    requires InPlace(kinds, Place(k))
    ensures var more := kinds + (if holds then [k] else []);
            InPlace(more, PlaceAfter(k)) && forall j :: j in more <==> j in kinds || (holds && j == k)
  {
  }

  /** The list has exactly the kinds that are so, in a fixed order and so none twice. */
  lemma EachKindOnceInOrder(p: Kind -> bool)
    ensures InPlace(KindsThat(p), 5) && forall k: Kind :: k in KindsThat(p) <==> p(k)
  {
    hide InPlace, Place;
    var a := if p(DiskFail) then [DiskFail] else [];
    var b := a + (if p(DiskWarn) then [DiskWarn] else []);
    var c := b + (if p(TickWedged) then [TickWedged] else []);
    var d := c + (if p(KeepawakeFailing) then [KeepawakeFailing] else []);
    FirstKind(p(DiskFail));
    OneMoreKind(a, DiskWarn, p(DiskWarn));
    OneMoreKind(b, TickWedged, p(TickWedged));
    OneMoreKind(c, KeepawakeFailing, p(KeepawakeFailing));
    OneMoreKind(d, RepairFailing, p(RepairFailing));
    assert KindsThat(p) == d + (if p(RepairFailing) then [RepairFailing] else []);
    hide KindsThat;
    forall k: Kind ensures k in KindsThat(p) <==> p(k) {
      match k
      case DiskFail =>
      case DiskWarn =>
      case TickWedged =>
      case KeepawakeFailing =>
      case RepairFailing =>
    }
  }

  lemma FirstKind(holds: bool)
    ensures var first := if holds then [DiskFail] else [];
            InPlace(first, Place(DiskWarn)) && forall j :: j in first <==> holds && j == DiskFail
  {
  }

  lemma MarkOfAfter(s: State, r: Report, now: int, k: Kind)
    ensures MarkOf(After(s, r, now).marks, k) == MarkAfter(MarkOf(s.marks, k), SignalOf(s, r, now, k), now)
  {
    hide SignalOf;
  }

  /** Only the mark of `kind` moves, as the tick's signal for it says. */
  ghost predicate Touched(s: State, marks: map<Kind, Mark>, r: Report, now: int, kind: Kind) {
    forall k :: MarkOf(marks, k) == if k == kind then MarkAfter(MarkOf(s.marks, k), SignalOf(s, r, now, k), now)
                                    else MarkOf(s.marks, k)
  }

  lemma SameMarks(a: map<Kind, Mark>, b: map<Kind, Mark>)
    requires forall k :: MarkOf(a, k) == MarkOf(b, k)
    ensures a == b
  {
    forall k ensures k in a <==> k in b {
      assert MarkOf(a, k) == MarkOf(b, k);
    }
    forall k | k in a ensures a[k] == b[k] {
      assert MarkOf(a, k) == MarkOf(b, k);
    }
  }

  /** The five sections, one after another, are the tick. */
  lemma AllTouched(s: State, s1: State, s2: State, s3: State, s4: State, marks: map<Kind, Mark>, r: Report, now: int)
    requires s1.wedge == s.wedge && s2.wedge == s.wedge && s1.streak == s.streak && s2.streak == s.streak
            && s3.streak == s.streak
    requires Touched(s, s1.marks, r, now, DiskFail) && Touched(s1, s2.marks, r, now, DiskWarn)
    requires Touched(s2, s3.marks, r, now, TickWedged) && Touched(s3, s4.marks, r, now, KeepawakeFailing)
    requires Touched(s4, marks, r, now, RepairFailing)
    ensures marks == After(s, r, now).marks
    ensures MarkOf(s1.marks, DiskWarn) == MarkOf(s.marks, DiskWarn)
            && MarkOf(s2.marks, TickWedged) == MarkOf(s.marks, TickWedged)
    ensures MarkOf(s3.marks, KeepawakeFailing) == MarkOf(s.marks, KeepawakeFailing)
    ensures MarkOf(s4.marks, RepairFailing) == MarkOf(s.marks, RepairFailing)
  {
    hide MarkOf, MarkAfter, After, Qualifies, RepairFails, Explained;
    forall k ensures MarkOf(marks, k) == MarkOf(After(s, r, now).marks, k) {
      MarkOfAfter(s, r, now, k);
      match k
      case DiskFail =>
      case DiskWarn =>
      case TickWedged =>
      case KeepawakeFailing =>
      case RepairFailing =>
    }
    SameMarks(marks, After(s, r, now).marks);
  }

  // ----- the pass over one status-seen box -----

  class BoxAlerts {
    var marks: map<Kind, Mark>
    var wedge: Option<nat>
    var streak: nat

    constructor ()
      ensures Abs() == EMPTY
    {
      marks, wedge, streak := map[], None, 0;
    }

    ghost function Abs(): State
      reads this
    {
      State(marks, wedge, streak)
    }

    method AlertDue(k: Kind, now: int) returns (due: bool)
      modifies this`marks
      ensures due <==> Due(MarkOf(old(marks), k), now)
      ensures forall j :: MarkOf(marks, j) == if j == k then MarkAfter(MarkOf(old(marks), k), Raise, now)
              else MarkOf(old(marks), j)
    {
      var first := now;
      if k in marks {
        first := marks[k].first;
        if now - marks[k].last < RENOTIFY_SECS {
          return false;
        }
      }
      marks := marks[k := Mark(first, now)];
      return true;
    }

    method AlertClear(k: Kind)
      modifies this`marks
      ensures forall j :: MarkOf(marks, j) == if j == k then None else MarkOf(old(marks), j)
    {
      marks := marks - {k};
    }

    method DiskFailCondition(r: Report, now: int) returns (active: bool, page: bool)
      modifies this`marks
      ensures active <==> SignalOf(old(Abs()), r, now, DiskFail) == Raise
      ensures page <==> active && Due(MarkOf(old(marks), DiskFail), now)
      ensures Touched(old(Abs()), marks, r, now, DiskFail)
    {
      active, page := r.disk == DiskFull, false;
      if active {
        page := AlertDue(DiskFail, now);
      } else {
        AlertClear(DiskFail);
      }
    }

    method DiskWarnCondition(r: Report, now: int) returns (active: bool, page: bool)
      modifies this`marks
      ensures active <==> SignalOf(old(Abs()), r, now, DiskWarn) == Raise
      ensures page <==> active && Due(MarkOf(old(marks), DiskWarn), now)
      ensures Touched(old(Abs()), marks, r, now, DiskWarn)
    {
      active, page := r.disk == DiskLow, false;
      if active {
        page := AlertDue(DiskWarn, now);
      } else {
        AlertClear(DiskWarn);
      }
    }

    /** A delta: the first sight of a box records silently. */
    method WedgeCondition(r: Report, now: int) returns (active: bool, page: bool)
      modifies this
      ensures wedge == Some(r.tickwedge) && streak == old(streak)
      ensures active <==> SignalOf(old(Abs()), r, now, TickWedged) == Raise
      ensures page <==> active && Due(MarkOf(old(marks), TickWedged), now)
      ensures Touched(old(Abs()), marks, r, now, TickWedged)
    {
      active, page := false, false;
      if wedge.None? {
        wedge := Some(r.tickwedge);
      } else if r.tickwedge > wedge.value {
        active := true;
        page := AlertDue(TickWedged, now);
        wedge := Some(r.tickwedge);
      } else {
        if r.tickwedge != wedge.value {
          wedge := Some(r.tickwedge);
        }
        AlertClear(TickWedged);
      }
    }

    method KeepawakeCondition(r: Report, now: int) returns (active: bool, page: bool)
      modifies this
      ensures wedge == old(wedge) && streak == if Qualifies(r, now) then old(streak) + 1 else 0
      ensures active <==> SignalOf(old(Abs()), r, now, KeepawakeFailing) == Raise
      ensures page <==> active && Due(MarkOf(old(marks), KeepawakeFailing), now)
      ensures Touched(old(Abs()), marks, r, now, KeepawakeFailing)
    {
      active, page := false, false;
      if Qualifies(r, now) {
        streak := streak + 1;
        if streak >= STREAK {
          active := true;
          page := AlertDue(KeepawakeFailing, now);
        }
      } else {
        streak := 0;
        AlertClear(KeepawakeFailing);
      }
    }

    method RepairCondition(r: Report, now: int) returns (active: bool, page: bool)
      modifies this`marks
      ensures active <==> RepairFails(r)
      ensures page <==>
                SignalOf(old(Abs()), r, now, RepairFailing) == Raise && Due(MarkOf(old(marks), RepairFailing), now)
      ensures Touched(old(Abs()), marks, r, now, RepairFailing)
    {
      active, page := RepairFails(r), false;
      if active {
        if !Explained(r) {
          page := AlertDue(RepairFailing, now);
        }
      } else {
        AlertClear(RepairFailing);
      }
    }

    /** The pass over one status-seen box: the kinds shown, and those sent. */
    method AlertBoxConditions(r: Report, now: int) returns (active: seq<Kind>, paged: seq<Kind>)
      modifies this
      ensures Abs() == After(old(Abs()), r, now)
      ensures active == KindsThat(k => Active(old(Abs()), r, now, k))
      ensures paged == KindsThat(k => Pages(old(Abs()), r, now, k))
    {
      hide Due, Qualifies, RepairFails, Explained, MarkAfter, InOrder, MarkOf, Touched;
      var full, pageFull := DiskFailCondition(r, now);
      ghost var s1 := Abs();
      var low, pageLow := DiskWarnCondition(r, now);
      ghost var s2 := Abs();
      var wedged, pageWedged := WedgeCondition(r, now);
      ghost var s3 := Abs();
      var failing, pageFailing := KeepawakeCondition(r, now);
      ghost var s4 := Abs();
      var broken, pageBroken := RepairCondition(r, now);
      AllTouched(old(Abs()), s1, s2, s3, s4, marks, r, now);
      active := InOrder(full, low, wedged, failing, broken);
      paged := InOrder(pageFull, pageLow, pageWedged, pageFailing, pageBroken);
    }
  }

  // ----- over many ticks -----

  /** A tick; no report if the box was not status-seen. */
  datatype Tick = Tick(now: int, report: Option<Report>)

  function StateAt(ticks: seq<Tick>, j: nat): State
    requires j <= |ticks|
  {
    if j == 0 then EMPTY
    else
      var t := ticks[j - 1];
      if t.report.None? then StateAt(ticks, j - 1) else After(StateAt(ticks, j - 1), t.report.value, t.now)
  }

  predicate Seen(ticks: seq<Tick>, j: nat) {
    j < |ticks| && ticks[j].report.Some?
  }

  ghost predicate Signals(ticks: seq<Tick>, j: nat, k: Kind, signal: Signal) {
    Seen(ticks, j) && SignalOf(StateAt(ticks, j), ticks[j].report.value, ticks[j].now, k) == signal
  }

  ghost predicate Sends(ticks: seq<Tick>, j: nat, k: Kind) {
    Seen(ticks, j) && Pages(StateAt(ticks, j), ticks[j].report.value, ticks[j].now, k)
  }

  ghost predicate Shows(ticks: seq<Tick>, j: nat, k: Kind) {
    Seen(ticks, j) && Active(StateAt(ticks, j), ticks[j].report.value, ticks[j].now, k)
  }

  /** Sent at tick i, and not cleared between i and j. */
  ghost predicate Standing(ticks: seq<Tick>, i: nat, j: nat, k: Kind) {
    i < j && Sends(ticks, i, k) && forall m: nat :: i < m < j ==> !Signals(ticks, m, k, Clear)
  }

  ghost predicate LastStanding(ticks: seq<Tick>, i: nat, j: nat, k: Kind) {
    Standing(ticks, i, j, k) && forall m: nat :: i < m < j ==> !Sends(ticks, m, k)
  }

  ghost predicate FirstStanding(ticks: seq<Tick>, i: nat, j: nat, k: Kind) {
    Standing(ticks, i, j, k) && forall m: nat :: Standing(ticks, m, j, k) ==> i <= m
  }

  /** A mark holds the times of the first and of the last send that stand; without one none stands. */
  ghost predicate MarkTells(ticks: seq<Tick>, j: nat, k: Kind, m: Option<Mark>) {
    match m
    case None => forall i: nat :: !Standing(ticks, i, j, k)
    case Some(mark) =>
      && (exists i: nat :: LastStanding(ticks, i, j, k) && mark.last == ticks[i].now)
      && (exists i: nat :: FirstStanding(ticks, i, j, k) && mark.first == ticks[i].now)
  }

  lemma TickMarks(ticks: seq<Tick>, j: nat, k: Kind)
    requires 0 < j <= |ticks|
    ensures var m, after := MarkOf(StateAt(ticks, j - 1).marks, k), MarkOf(StateAt(ticks, j).marks, k);
            && (Sends(ticks, j - 1, k) ==>
                  after == Some(Mark(if m.Some? then m.value.first else ticks[j - 1].now, ticks[j - 1].now)))
            && (Signals(ticks, j - 1, k, Clear) ==> after.None?)
            && (!Sends(ticks, j - 1, k) && !Signals(ticks, j - 1, k, Clear) ==> after == m)
  {
    if Seen(ticks, j - 1) {
      MarkOfAfter(StateAt(ticks, j - 1), ticks[j - 1].report.value, ticks[j - 1].now, k);
    }
    hide After, SignalOf, MarkOf;
  }

  lemma StandingGoesOn(ticks: seq<Tick>, i: nat, j: nat, k: Kind)
    ensures Standing(ticks, i, j + 1, k)
            <==> (i == j && Sends(ticks, i, k)) || (Standing(ticks, i, j, k) && !Signals(ticks, j, k, Clear))
  {
    hide Sends, Signals;
  }

  lemma LastStandingGoesOn(ticks: seq<Tick>, i: nat, j: nat, k: Kind)
    requires LastStanding(ticks, i, j, k) && !Sends(ticks, j, k) && !Signals(ticks, j, k, Clear)
    ensures LastStanding(ticks, i, j + 1, k)
  {
    hide Sends, Signals;
  }

  lemma FirstStandingGoesOn(ticks: seq<Tick>, i: nat, j: nat, k: Kind)
    requires FirstStanding(ticks, i, j, k) && !Signals(ticks, j, k, Clear)
    ensures FirstStanding(ticks, i, j + 1, k)
  {
    hide Sends, Signals;
    StandingGoesOn(ticks, i, j, k);
    var next := j + 1;
    forall m: nat | Standing(ticks, m, next, k) ensures i <= m {
      StandingGoesOn(ticks, m, j, k);
    }
  }

  lemma SentIsFirst(ticks: seq<Tick>, j: nat, k: Kind)
    requires Sends(ticks, j, k) && forall i: nat :: !Standing(ticks, i, j, k)
    ensures FirstStanding(ticks, j, j + 1, k)
  {
    hide Sends, Signals;
    var next := j + 1;
    forall m: nat | Standing(ticks, m, next, k) ensures j <= m {
      StandingGoesOn(ticks, m, j, k);
    }
    StandingGoesOn(ticks, j, j, k);
  }

  lemma MarkSent(ticks: seq<Tick>, j: nat, k: Kind, m: Option<Mark>)
    requires MarkTells(ticks, j, k, m) && Sends(ticks, j, k)
    ensures MarkTells(ticks, j + 1, k, Some(Mark(if m.Some? then m.value.first else ticks[j].now, ticks[j].now)))
  {
    SentIsNoClear(ticks, j, k);
    SentIsLast(ticks, j, k);
    hide Sends, Signals, Standing, LastStanding, FirstStanding;
    if m.Some? {
      var i: nat :| FirstStanding(ticks, i, j, k) && m.value.first == ticks[i].now;
      FirstStandingGoesOn(ticks, i, j, k);
    } else {
      SentIsFirst(ticks, j, k);
    }
  }

  lemma MarkStays(ticks: seq<Tick>, j: nat, k: Kind, m: Mark)
    requires MarkTells(ticks, j, k, Some(m)) && !Sends(ticks, j, k) && !Signals(ticks, j, k, Clear)
    ensures MarkTells(ticks, j + 1, k, Some(m))
  {
    hide Signals, Pages, StateAt;
    var i: nat :| LastStanding(ticks, i, j, k) && m.last == ticks[i].now;
    LastStandingGoesOn(ticks, i, j, k);
    var n: nat :| FirstStanding(ticks, n, j, k) && m.first == ticks[n].now;
    FirstStandingGoesOn(ticks, n, j, k);
  }

  lemma NoneStands(ticks: seq<Tick>, j: nat, k: Kind, m: Option<Mark>)
    requires MarkTells(ticks, j, k, m) && !Sends(ticks, j, k) && (Signals(ticks, j, k, Clear) || m.None?)
    ensures MarkTells(ticks, j + 1, k, None)
  {
    hide Sends, Signals, Standing, LastStanding, FirstStanding;
    var next := j + 1;
    forall i: nat ensures !Standing(ticks, i, next, k) {
      StandingGoesOn(ticks, i, j, k);
    }
  }

  lemma NoMarkYet(ticks: seq<Tick>, k: Kind)
    ensures MarkTells(ticks, 0, k, MarkOf(StateAt(ticks, 0).marks, k))
  {
  }

  /** Over every run the mark of a kind holds the first and the last send since its last clear. */
  lemma {:induction false} MarkIsLastSend(ticks: seq<Tick>, j: nat, k: Kind)
    requires j <= |ticks|
    ensures MarkTells(ticks, j, k, MarkOf(StateAt(ticks, j).marks, k))
  {
    hide *;
    if j > 0 {
      MarkIsLastSend(ticks, j - 1, k);
      TickMarks(ticks, j, k);
      var m := MarkOf(StateAt(ticks, j - 1).marks, k);
      if Sends(ticks, j - 1, k) {
        SentIsNoClear(ticks, j - 1, k);
        MarkSent(ticks, j - 1, k, m);
      } else if !Signals(ticks, j - 1, k, Clear) && m.Some? {
        MarkStays(ticks, j - 1, k, m.value);
      } else {
        NoneStands(ticks, j - 1, k, m);
      }
    } else {
      NoMarkYet(ticks, k);
    }
  }

  lemma SentIsLast(ticks: seq<Tick>, j: nat, k: Kind)
    requires Sends(ticks, j, k)
    ensures LastStanding(ticks, j, j + 1, k)
  {
    hide Sends, Signals;
  }

  lemma SentIsNoClear(ticks: seq<Tick>, j: nat, k: Kind)
    ensures !(Sends(ticks, j, k) && Signals(ticks, j, k, Clear))
  {
  }

  /** The throttle, over every run with non-decreasing time: a tick sends a kind
      exactly if it raises it and no send within the renotify window is standing. So
      two sends with no clear between them are a window apart, and the first raise
      after a clear sends. */
  lemma SendsExactlyWhenDue(ticks: seq<Tick>, j: nat, k: Kind)
    requires forall a, b :: 0 <= a <= b < |ticks| ==> ticks[a].now <= ticks[b].now
    requires j < |ticks|
    ensures Sends(ticks, j, k)
            <==> Signals(ticks, j, k, Raise)
                 && !exists i: nat :: Standing(ticks, i, j, k) && ticks[j].now - ticks[i].now < RENOTIFY_SECS
  {
    MarkIsLastSend(ticks, j, k);
    var m := MarkOf(StateAt(ticks, j).marks, k);
    assert Sends(ticks, j, k) <==> Signals(ticks, j, k, Raise) && Due(m, ticks[j].now);
    hide StateAt, SignalOf, Signals, Sends, MarkOf;
    if m.Some? {
      var last: nat :| LastStanding(ticks, last, j, k) && m.value.last == ticks[last].now;
      forall i: nat | Standing(ticks, i, j, k) ensures ticks[i].now <= ticks[last].now {
        assert i <= last;
      }
    }
  }

  /** Two sends of a kind with no clear between them are a renotify window apart. */
  lemma SendsAreApart(ticks: seq<Tick>, i: nat, j: nat, k: Kind)
    requires forall a, b :: 0 <= a <= b < |ticks| ==> ticks[a].now <= ticks[b].now
    requires j < |ticks| && Sends(ticks, j, k) && Standing(ticks, i, j, k)
    ensures ticks[j].now - ticks[i].now >= RENOTIFY_SECS
  {
    SendsExactlyWhenDue(ticks, j, k);
  }

  // ----- what the stateful kinds mean -----

  ghost predicate PreviousSeen(ticks: seq<Tick>, i: nat, j: nat) {
    i < j && Seen(ticks, i) && forall m: nat :: i < m < j ==> !Seen(ticks, m)
  }

  lemma {:induction false} WedgeIsLastSeen(ticks: seq<Tick>, j: nat)
    requires j <= |ticks|
    ensures match StateAt(ticks, j).wedge
            case None => forall i: nat :: !PreviousSeen(ticks, i, j)
            case Some(w) => exists i: nat :: PreviousSeen(ticks, i, j) && ticks[i].report.value.tickwedge == w
  {
    if j > 0 {
      WedgeIsLastSeen(ticks, j - 1);
      hide After;
      if Seen(ticks, j - 1) {
        assert PreviousSeen(ticks, j - 1, j);
        AfterRecords(StateAt(ticks, j - 1), ticks[j - 1].report.value, ticks[j - 1].now);
      } else {
        forall i: nat ensures PreviousSeen(ticks, i, j) <==> PreviousSeen(ticks, i, j - 1) {
        }
      }
    } else {
      assert forall i: nat :: !PreviousSeen(ticks, i, 0);
    }
  }

  lemma AfterRecords(s: State, r: Report, now: int)
    ensures After(s, r, now).wedge == Some(r.tickwedge)
    ensures After(s, r, now).streak == if Qualifies(r, now) then s.streak + 1 else 0
  {
  }

  /** `tick-wedged` is shown exactly on a strict increase over the last status-seen
      value; a box seen for the first time is silent. */
  lemma WedgeMeansIncrease(ticks: seq<Tick>, j: nat)
    requires j < |ticks|
    ensures Shows(ticks, j, TickWedged)
            <==> Seen(ticks, j)
                 && exists i: nat :: PreviousSeen(ticks, i, j)
                                     && ticks[j].report.value.tickwedge > ticks[i].report.value.tickwedge
  {
    WedgeIsLastSeen(ticks, j);
    var wedge := StateAt(ticks, j).wedge;
    hide StateAt;
    if wedge.Some? {
      var last: nat :| PreviousSeen(ticks, last, j) && ticks[last].report.value.tickwedge == wedge.value;
      forall i: nat | PreviousSeen(ticks, i, j) ensures i == last {
        assert Seen(ticks, i) && Seen(ticks, last);
      }
    }
  }

  /** Keep-awake is on, its last code is one of the three failures, and not stale. */
  predicate QualifiesAt(ticks: seq<Tick>, j: nat) {
    && Seen(ticks, j)
    && var r := ticks[j].report.value;
       && r.keepawakeOn && r.keepawakeRc in {Some("refused"), Some("unreachable"), Some("inert")}
       && r.keepawakeLast.Some? && ticks[j].now <= r.keepawakeLast.value + STALE_SECS
  }

  lemma QualifiesIs(ticks: seq<Tick>, j: nat)
    ensures QualifiesAt(ticks, j) <==> Seen(ticks, j) && Qualifies(ticks[j].report.value, ticks[j].now)
  {
  }

  /** How many status-seen ticks in a row, up to j, qualified. */
  function Streak(ticks: seq<Tick>, j: nat): nat
    requires j <= |ticks|
  {
    if j == 0 then 0
    else if !Seen(ticks, j - 1) then Streak(ticks, j - 1)
    else if QualifiesAt(ticks, j - 1) then Streak(ticks, j - 1) + 1
    else 0
  }

  lemma {:induction false} StreakIsCounted(ticks: seq<Tick>, j: nat)
    requires j <= |ticks|
    ensures StateAt(ticks, j).streak == Streak(ticks, j)
  {
    if j > 0 {
      StreakIsCounted(ticks, j - 1);
      QualifiesIs(ticks, j - 1);
      hide After, Qualifies, QualifiesAt;
      if Seen(ticks, j - 1) {
        AfterRecords(StateAt(ticks, j - 1), ticks[j - 1].report.value, ticks[j - 1].now);
      }
    }
  }

  ghost predicate ThreeSeen(ticks: seq<Tick>, a: nat, b: nat, j: nat) {
    && PreviousSeen(ticks, a, b) && PreviousSeen(ticks, b, j)
    && QualifiesAt(ticks, a) && QualifiesAt(ticks, b) && QualifiesAt(ticks, j)
  }

  lemma {:induction false} LongStreak(ticks: seq<Tick>, j: nat, n: nat)
    requires j <= |ticks| && n > 0
    ensures Streak(ticks, j) >= n
            <==> exists i: nat :: PreviousSeen(ticks, i, j) && QualifiesAt(ticks, i) && Streak(ticks, i) >= n - 1
  {
    hide QualifiesAt;
    if j > 0 {
      LongStreak(ticks, j - 1, n);
      if Seen(ticks, j - 1) {
        assert PreviousSeen(ticks, j - 1, j);
        forall i: nat | PreviousSeen(ticks, i, j) ensures i == j - 1 {
        }
      } else {
        forall i: nat ensures PreviousSeen(ticks, i, j) <==> PreviousSeen(ticks, i, j - 1) {
        }
      }
    }
  }

  /** `keepawake-failing` is shown exactly when this and the two status-seen ticks
      before it all qualified. */
  lemma KeepawakeMeansThree(ticks: seq<Tick>, j: nat)
    requires j < |ticks|
    ensures Shows(ticks, j, KeepawakeFailing) <==> exists a: nat, b: nat :: ThreeSeen(ticks, a, b, j)
  {
    StreakIsCounted(ticks, j);
    QualifiesIs(ticks, j);
    hide Qualifies, QualifiesAt, StateAt;
    LongStreak(ticks, j, 2);
    assert Shows(ticks, j, KeepawakeFailing) <==> QualifiesAt(ticks, j) && Streak(ticks, j) >= 2;
    if Streak(ticks, j) >= 2 && QualifiesAt(ticks, j) {
      var b: nat :| PreviousSeen(ticks, b, j) && QualifiesAt(ticks, b) && Streak(ticks, b) >= 1;
      LongStreak(ticks, b, 1);
      var a: nat :| PreviousSeen(ticks, a, b) && QualifiesAt(ticks, a);
      assert ThreeSeen(ticks, a, b, j);
    }
    forall a: nat, b: nat | ThreeSeen(ticks, a, b, j) ensures Streak(ticks, j) >= 2 {
      LongStreak(ticks, b, 1);
    }
  }

  /** `repair-failing` is shown exactly while one of the two counts is three or more; it is
      held back, neither sent nor cleared, while a full disk explains the failing repairs and
      the refreshes do not fail as well; and it is cleared once both counts are below three. */
  lemma RepairMeansThree(ticks: seq<Tick>, j: nat)
    requires Seen(ticks, j)
    ensures var r := ticks[j].report.value;
            var bad := r.repairFailing >= 3 || r.refreshFailing >= 3;
            var full := r.disk == DiskFull && r.refreshFailing < 3;
            && (Shows(ticks, j, RepairFailing) <==> bad)
            && (Signals(ticks, j, RepairFailing, Raise) <==> bad && !full)
            && (Signals(ticks, j, RepairFailing, Hold) <==> bad && full)
  {
  }

  // ----- the live display -----

  datatype Shown = Plain(kind: Kind) | Maybe(kind: Kind)

  /** `statelessConditions`: from the report, and the recorded wedge count if the
      store gives one. */
  function StatelessConditions(r: Report, seen: Option<nat>): seq<Shown> {
    (if r.disk == DiskFull then [Plain(DiskFail)] else [])
    + (if r.disk == DiskLow then [Plain(DiskWarn)] else [])
    + (if r.tickwedge == 0 then []
       else if seen.None? then [Maybe(TickWedged)]
       else if r.tickwedge > seen.value then [Plain(TickWedged)] else [])
    + (if r.keepawakeOn && FailingRc(r.keepawakeRc) then [Maybe(KeepawakeFailing)] else [])
    + (if RepairFails(r) then [Plain(RepairFailing)] else [])
  }

  lemma DisplayHas(r: Report, seen: Option<nat>, x: Shown)
    ensures x in StatelessConditions(r, seen)
            <==> match x
                 case Plain(DiskFail) => r.disk == DiskFull
                 case Plain(DiskWarn) => r.disk == DiskLow
                 case Plain(TickWedged) => seen.Some? && r.tickwedge > seen.value
                 case Maybe(TickWedged) => seen.None? && r.tickwedge > 0
                 case Maybe(KeepawakeFailing) => r.keepawakeOn && FailingRc(r.keepawakeRc)
                 case Plain(RepairFailing) => RepairFails(r)
                 case _ => false
  {
    hide FailingRc, RepairFails;
    match x
    case Plain(_) =>
    case Maybe(_) =>
  }

  /** Given the recorded count, what the display shows for certain the next tick would
      show as active, and the other way round; of the keep-awake kind it never misses
      a failure. */
  lemma DisplayAgrees(s: State, r: Report, now: int, k: Kind)
    ensures k != KeepawakeFailing && s.wedge.Some? ==>
              (Plain(k) in StatelessConditions(r, s.wedge) <==> Active(s, r, now, k))
              && Maybe(k) !in StatelessConditions(r, s.wedge)
    ensures k != KeepawakeFailing && k != TickWedged ==>
              (Plain(k) in StatelessConditions(r, None) <==> Active(s, r, now, k))
    ensures Active(s, r, now, KeepawakeFailing) ==> Maybe(KeepawakeFailing) in StatelessConditions(r, s.wedge)
  {
    DisplayHas(r, s.wedge, Plain(k));
    DisplayHas(r, s.wedge, Maybe(k));
    DisplayHas(r, None, Plain(k));
    DisplayHas(r, s.wedge, Maybe(KeepawakeFailing));
    hide StatelessConditions, Due, FailingRc, RepairFails;
  }

  /** What the display can only say may be so: of the keep-awake kind, that its last code is
      a failure, however old and however rare; and without a recorded count, that the box has
      been wedged at all. */
  lemma DisplayMayOverstate(r: Report, seen: Option<nat>)
    ensures Maybe(KeepawakeFailing) in StatelessConditions(r, seen)
            <==> r.keepawakeOn && r.keepawakeRc in {Some("refused"), Some("unreachable"), Some("inert")}
    ensures Maybe(TickWedged) in StatelessConditions(r, seen) <==> seen.None? && r.tickwedge > 0
    ensures Plain(KeepawakeFailing) !in StatelessConditions(r, seen)
  {
    DisplayHas(r, seen, Maybe(KeepawakeFailing));
    DisplayHas(r, seen, Maybe(TickWedged));
    DisplayHas(r, seen, Plain(KeepawakeFailing));
    hide StatelessConditions;
  }

  // ----- the asleep digest -----

  const ASLEEP_SECS := 7200
  const DIGEST_SECS := 86400

  /** What a tick saw of the box: both paths dead, alive, or nothing at all. */
  datatype Sight = Dead | Alive | Unobserved

  datatype Night = Night(now: int, sight: Sight)

  /** `<box>.asleep`; a `last` of 0 stands for no message yet. */
  function AsleepAfter(m: Option<Mark>, t: Night): Option<Mark> {
    match t.sight
    case Unobserved => m
    case Alive => None
    case Dead =>
      var since, last := if m.Some? then m.value.first else t.now, if m.Some? then m.value.last else 0;
      Some(Mark(since, if Tells(m, t.now) then t.now else last))
  }

  predicate Tells(m: Option<Mark>, now: int) {
    var since, last := if m.Some? then m.value.first else now, if m.Some? then m.value.last else 0;
    if last == 0 then now - since >= ASLEEP_SECS else now - last >= DIGEST_SECS
  }

  class AsleepMarker {
    var mark: Option<Mark>

    constructor ()
      ensures mark == None
    {
      mark := None;
    }

    method AlertAsleep(now: int) returns (told: bool)
      modifies this
      ensures mark == AsleepAfter(old(mark), Night(now, Dead)) && (told <==> Tells(old(mark), now))
    {
      var since, last := now, 0;
      if mark.Some? {
        since, last := mark.value.first, mark.value.last;
      }
      told := false;
      if last == 0 {
        if now - since >= ASLEEP_SECS {
          told := true;
          last := now;
        }
      } else if now - last >= DIGEST_SECS {
        told := true;
        last := now;
      }
      mark := Some(Mark(since, last));
    }

    method Reset()
      modifies this
      ensures mark == AsleepAfter(old(mark), Night(0, Alive))
    {
      mark := None;
    }
  }

  function AsleepAt(nights: seq<Night>, j: nat): Option<Mark>
    requires j <= |nights|
  {
    if j == 0 then None else AsleepAfter(AsleepAt(nights, j - 1), nights[j - 1])
  }

  ghost predicate TellsAt(nights: seq<Night>, j: nat) {
    j < |nights| && nights[j].sight == Dead && Tells(AsleepAt(nights, j), nights[j].now)
  }

  /** The tick at which the sleep that is under way at tick j began. */
  function FellAsleep(nights: seq<Night>, j: nat): (i: Option<nat>)
    requires j <= |nights|
    ensures i.Some? ==> i.value < j
  {
    if j == 0 || nights[j - 1].sight == Alive then None
    else if nights[j - 1].sight == Dead && FellAsleep(nights, j - 1).None? then Some(j - 1)
    else FellAsleep(nights, j - 1)
  }

  /** Tick i told of the sleep that is under way at tick j. */
  ghost predicate ToldBefore(nights: seq<Night>, i: nat, j: nat) {
    j <= |nights| && FellAsleep(nights, j).Some? && FellAsleep(nights, j).value <= i < j && TellsAt(nights, i)
  }

  ghost predicate LastTold(nights: seq<Night>, i: nat, j: nat) {
    ToldBefore(nights, i, j) && forall m: nat :: i < m < j ==> !TellsAt(nights, m)
  }

  ghost predicate MarkerTells(nights: seq<Night>, j: nat, m: Option<Mark>)
    requires j <= |nights|
  {
    var start := FellAsleep(nights, j);
    && (m.Some? <==> start.Some?)
    && (m.Some? ==>
          && m.value.first == nights[start.value].now
          && (m.value.last == 0 ==> forall i: nat :: !ToldBefore(nights, i, j))
          && (m.value.last != 0 ==> exists i: nat :: LastTold(nights, i, j) && m.value.last == nights[i].now))
  }

  lemma {:induction false} MarkerIsExact(nights: seq<Night>, j: nat)
    requires j <= |nights| && forall i :: 0 <= i < |nights| ==> nights[i].now > 0
    ensures MarkerTells(nights, j, AsleepAt(nights, j))
  {
    if j > 0 {
      MarkerIsExact(nights, j - 1);
      var m, t := AsleepAt(nights, j - 1), nights[j - 1];
      var after := AsleepAt(nights, j);
      assert TellsAt(nights, j - 1) <==> t.sight == Dead && Tells(m, t.now);
      hide AsleepAt, TellsAt;
      if t.sight != Alive {
        if TellsAt(nights, j - 1) {
          assert LastTold(nights, j - 1, j);
        } else if m.Some? && m.value.last != 0 {
          var i: nat :| LastTold(nights, i, j - 1) && m.value.last == nights[i].now;
          assert LastTold(nights, i, j);
        } else {
          forall i: nat ensures !ToldBefore(nights, i, j) {
            assert !ToldBefore(nights, i, j - 1);
          }
        }
      }
    }
  }

  /** Over every run with non-decreasing time, a message about a sleep goes out exactly
      when both paths are dead and either none went out yet and the sleep has lasted
      two hours, or one did and none within the last day. */
  lemma TellsExactlyWhenDue(nights: seq<Night>, j: nat)
    requires j < |nights| && forall i :: 0 <= i < |nights| ==> nights[i].now > 0
    requires forall a, b :: 0 <= a <= b < |nights| ==> nights[a].now <= nights[b].now
    ensures var start := if FellAsleep(nights, j).Some? then FellAsleep(nights, j).value else j;
            TellsAt(nights, j)
            <==> nights[j].sight == Dead
                 && (if exists i: nat :: ToldBefore(nights, i, j)
                     then forall i: nat :: ToldBefore(nights, i, j) ==> nights[j].now - nights[i].now >= DIGEST_SECS
                     else nights[j].now - nights[start].now >= ASLEEP_SECS)
  {
    MarkerIsExact(nights, j);
    var m := AsleepAt(nights, j);
    assert TellsAt(nights, j) <==> nights[j].sight == Dead && Tells(m, nights[j].now);
    hide AsleepAt, TellsAt, FellAsleep;
    if m.Some? && m.value.last != 0 {
      var last: nat :| LastTold(nights, last, j) && m.value.last == nights[last].now;
      assert ToldBefore(nights, last, j);
      forall i: nat | ToldBefore(nights, i, j) ensures nights[i].now <= nights[last].now {
        assert i <= last;
      }
    }
  }
}
