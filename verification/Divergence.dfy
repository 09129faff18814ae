/** The advisory file-against-store membership check (fleet/src/store/divergence.ts): a
    finding per diverging name, an audit trail and throttled notices. Names are worked
    through in any order; what holds is stated name by name. */
module Divergence {
  import opened Wrappers

  const RENOTIFY_SECS := 86400

  datatype Kind = FileOnly | StoreOnly

  datatype Finding = Finding(kind: Kind, firstSeen: int, lastSeen: int, lastReported: Option<int>)

  /** Audit rows: `divergence` (new or changed) and `divergence-cleared`. */
  datatype Entry =
    | Found(name: string, kind: Kind, at: int)
    | Changed(name: string, from: Kind, kind: Kind, at: int)
    | Cleared(name: string, from: Kind, at: int)

  datatype Notice = Warn(name: string, kind: Kind, at: int) | Info(name: string, at: int)

  /** What one check sees: the names in the file unless it cannot be read, the names
      enrolled in the store, and the time. */
  datatype Look = Look(file: Option<set<string>>, enrolled: set<string>, now: int)

  function KindOf(file: set<string>, enrolled: set<string>, name: string): Option<Kind> {
    if name in file && name !in enrolled then Some(FileOnly)
    else if name in enrolled && name !in file then Some(StoreOnly)
    else None
  }

  // ----- one name -----

  /** A name's row, its audit rows and its notices. */
  datatype View = View(row: Option<Finding>, trail: seq<Entry>, notices: seq<Notice>)

  predicate Due(f: Finding, now: int) {
    f.lastReported.None? || now - f.lastReported.value >= RENOTIFY_SECS
  }

  function Row(prior: Option<Finding>, kind: Option<Kind>, now: int): Option<Finding> {
    if kind.None? then None
    else if prior.None? then Some(Finding(kind.value, now, now, Some(now)))
    else if prior.value.kind != kind.value || Due(prior.value, now) then
      Some(Finding(kind.value, prior.value.firstSeen, now, Some(now)))
    else Some(prior.value.(lastSeen := now))
  }

  function Entries(name: string, prior: Option<Finding>, kind: Option<Kind>, now: int): seq<Entry> {
    match (prior, kind)
    case (None, None) => []
    case (None, Some(k)) => [Found(name, k, now)]
    case (Some(f), None) => [Cleared(name, f.kind, now)]
    case (Some(f), Some(k)) => if f.kind != k then [Changed(name, f.kind, k, now)] else []
  }

  function Notices(name: string, prior: Option<Finding>, kind: Option<Kind>, now: int): seq<Notice> {
    match (prior, kind)
    case (None, None) => []
    case (None, Some(k)) => [Warn(name, k, now)]
    case (Some(f), None) => [Info(name, now)]
    case (Some(f), Some(k)) => if f.kind != k || Due(f, now) then [Warn(name, k, now)] else []
  }

  function Stepped(v: View, name: string, kind: Option<Kind>, now: int): View {
    View(Row(v.row, kind, now), v.trail + Entries(name, v.row, kind, now), v.notices + Notices(name, v.row, kind, now))
  }

  function After(v: View, name: string, c: Look): View {
    if c.file.None? then v else Stepped(v, name, KindOf(c.file.value, c.enrolled, name), c.now)
  }

  /** What these checks leave of a name, starting from nothing. */
  function Seen(looks: seq<Look>, name: string): View {
    if looks == [] then View(None, [], []) else After(Seen(looks[..|looks| - 1], name), name, looks[|looks| - 1])
  }

  // ----- the machine -----

  function TrailOf(audit: seq<Entry>, name: string): seq<Entry> {
    if audit == [] then []
    else TrailOf(audit[..|audit| - 1], name) + if audit[|audit| - 1].name == name then [audit[|audit| - 1]] else []
  }

  function NoticesOf(notices: seq<Notice>, name: string): seq<Notice> {
    if notices == [] then []
    else
      var last := notices[|notices| - 1];
      NoticesOf(notices[..|notices| - 1], name) + if last.name == name then [last] else []
  }

  function RowOf(findings: map<string, Finding>, name: string): Option<Finding> {
    if name in findings then Some(findings[name]) else None
  }

  lemma TrailGrows(audit: seq<Entry>, e: Entry, name: string)
    ensures TrailOf(audit + [e], name) == TrailOf(audit, name) + if e.name == name then [e] else []
  {
    assert (audit + [e])[..|audit|] == audit;
  }

  lemma NoticesGrow(notices: seq<Notice>, n: Notice, name: string)
    ensures NoticesOf(notices + [n], name) == NoticesOf(notices, name) + if n.name == name then [n] else []
  {
    assert (notices + [n])[..|notices|] == notices;
  }

  class DivergenceStore {
    var findings: map<string, Finding>
    var audit: seq<Entry>
    /** All notices handed to the caller so far. */
    var notices: seq<Notice>

    constructor ()
      ensures findings == map[] && audit == [] && notices == []
    {
      findings, audit, notices := map[], [], [];
    }

    ghost function ViewOf(name: string): View
      reads this
    {
      View(RowOf(findings, name), TrailOf(audit, name), NoticesOf(notices, name))
    }

    method Log(e: Entry)
      modifies this`audit
      ensures forall name :: TrailOf(audit, name) == TrailOf(old(audit), name) + if e.name == name then [e] else []
    {
      forall name {
        TrailGrows(audit, e, name);
      }
      audit := audit + [e];
    }

    method Notify(n: Notice)
      modifies this`notices
      ensures forall name :: NoticesOf(notices, name)
                             == NoticesOf(old(notices), name) + if n.name == name then [n] else []
    {
      forall name {
        NoticesGrow(notices, n, name);
      }
      notices := notices + [n];
    }

    /** A diverging name: new, changed or unchanged. */
    method Report(name: string, kind: Kind, now: int)
      modifies this
      ensures ViewOf(name) == Stepped(old(ViewOf(name)), name, Some(kind), now)
      ensures forall other :: other != name ==> ViewOf(other) == old(ViewOf(other))
    {
      hide TrailOf, NoticesOf;
      if name !in findings {
        findings := findings[name := Finding(kind, now, now, Some(now))];
        Log(Found(name, kind, now));
        Notify(Warn(name, kind, now));
        return;
      }
      var prior := findings[name];
      if prior.kind != kind {
        findings := findings[name := prior.(kind := kind, lastSeen := now, lastReported := Some(now))];
        Log(Changed(name, prior.kind, kind, now));
        Notify(Warn(name, kind, now));
        return;
      }
      var due := prior.lastReported.None? || now - prior.lastReported.value >= RENOTIFY_SECS;
      findings := findings[name := prior.(lastSeen := now, lastReported := if due then Some(now)
          else prior.lastReported)];
      if due {
        Notify(Warn(name, kind, now));
      }
    }

    /** A finding whose name no longer diverges. */
    method Clear(name: string, now: int)
      requires name in findings
      modifies this
      ensures ViewOf(name) == Stepped(old(ViewOf(name)), name, None, now)
      ensures forall other :: other != name ==> ViewOf(other) == old(ViewOf(other))
    {
      hide TrailOf, NoticesOf;
      var prior := findings[name];
      findings := findings - {name};
      Log(Cleared(name, prior.kind, now));
      Notify(Info(name, now));
    }

    method ReportAll(file: set<string>, enrolled: set<string>, now: int)
      modifies this
      ensures forall name :: ViewOf(name) == if KindOf(file, enrolled, name).Some?
                                             then Stepped(old(ViewOf(name)), name, KindOf(file, enrolled, name), now)
                                             else old(ViewOf(name))
    {
      hide ViewOf, Stepped;
      var todo := (file - enrolled) + (enrolled - file);
      while todo != {}
        invariant todo <= (file - enrolled) + (enrolled - file)
        invariant forall name ::
                    ViewOf(name) == if KindOf(file, enrolled, name).Some? && name !in todo
                                    then Stepped(old(ViewOf(name)), name, KindOf(file, enrolled, name), now)
                                    else old(ViewOf(name))
        decreases |todo|
      {
        var name :| name in todo;
        Report(name, if name in file then FileOnly else StoreOnly, now);
        todo := todo - {name};
      }
    }

    method ClearAll(gone: set<string>, now: int)
      requires gone <= findings.Keys
      modifies this
      ensures forall name :: ViewOf(name) == if name in gone then Stepped(old(ViewOf(name)), name, None, now)
              else old(ViewOf(name))
    {
      hide TrailOf, NoticesOf, Stepped;
      var todo := gone;
      while todo != {}
        invariant todo <= gone
        invariant forall name :: ViewOf(name) == if name in gone - todo then Stepped(old(ViewOf(name)), name, None, now)
                                                 else old(ViewOf(name))
        decreases |todo|
      {
        var name :| name in todo;
        assert ViewOf(name).row == old(ViewOf(name)).row;
        Clear(name, now);
        todo := todo - {name};
      }
    }

    /** One check. A file that cannot be read changes nothing at all. */
    method CheckDivergence(c: Look)
      modifies this
      ensures forall name :: ViewOf(name) == After(old(ViewOf(name)), name, c)
    {
      if c.file.None? {
        return;
      }
      hide TrailOf, NoticesOf, Stepped;
      var file, enrolled := c.file.value, c.enrolled;
      var gone := findings.Keys - ((file - enrolled) + (enrolled - file));
      ReportAll(file, enrolled, c.now);
      forall name | name in gone ensures name in findings {
        assert ViewOf(name) == old(ViewOf(name));
      }
      ClearAll(gone, c.now);
      forall name ensures ViewOf(name) == After(old(ViewOf(name)), name, c) {
        if KindOf(file, enrolled, name).None? && name !in gone {
          QuietName(old(ViewOf(name)), name, c.now);
        }
      }
    }
  }

  lemma QuietName(v: View, name: string, now: int)
    requires v.row.None?
    ensures Stepped(v, name, None, now) == v
  {
    assert v.trail + [] == v.trail && v.notices + [] == v.notices;
  }

  /** The checks of a run, one after another. */
  method Patrol(looks: seq<Look>) returns (store: DivergenceStore)
    ensures forall name :: store.ViewOf(name) == Seen(looks, name)
  {
    hide After;
    store := new DivergenceStore();
    for i := 0 to |looks|
      invariant fresh(store)
      invariant forall name :: store.ViewOf(name) == Seen(looks[..i], name)
    {
      assert looks[..i + 1][..i] == looks[..i];
      store.CheckDivergence(looks[i]);
    }
    assert looks[..|looks|] == looks;
  }

  // ----- what a row says -----

  /** On one side alone, and on which: it reads nothing of the machine above. */
  function Diverges(c: Look, name: string): Option<Kind> {
    if c.file.None? || (name in c.file.value <==> name in c.enrolled) then None
    else Some(if name in c.enrolled then StoreOnly else FileOnly)
  }

  lemma KindIs(c: Look, name: string)
    ensures c.file.Some? ==> KindOf(c.file.value, c.enrolled, name) == Diverges(c, name)
  {
  }

  /** The last check of these that could compare. */
  function LastLook(looks: seq<Look>): (i: Option<nat>)
    ensures i.Some? ==> i.value < |looks| && looks[i.value].file.Some?
  {
    if looks == [] then None
    else if looks[|looks| - 1].file.Some? then Some(|looks| - 1)
    else LastLook(looks[..|looks| - 1])
  }

  /** The check at which the name's present stretch of divergence began: it diverges at
      every comparable check from here on, and did not at the comparable one before. */
  ghost predicate Began(looks: seq<Look>, name: string, i: nat) {
    && i < |looks| && looks[i].file.Some?
    && (forall j :: i <= j < |looks| && looks[j].file.Some? ==> Diverges(looks[j], name).Some?)
    && (LastLook(looks[..i]).Some? ==> Diverges(looks[LastLook(looks[..i]).value], name).None?)
  }

  ghost predicate Explains(looks: seq<Look>, name: string, f: Finding, i: nat) {
    && Began(looks, name, i) && f.firstSeen == looks[i].now
    && LastLook(looks).Some? && f.lastSeen == looks[LastLook(looks).value].now
    && Diverges(looks[LastLook(looks).value], name) == Some(f.kind)
  }

  lemma BeganGoesOn(looks: seq<Look>, c: Look, name: string, i: nat)
    requires Began(looks, name, i) && (c.file.Some? ==> Diverges(c, name).Some?)
    ensures Began(looks + [c], name, i)
  {
    assert (looks + [c])[..i] == looks[..i];
    hide Diverges, LastLook;
  }

  /** A row exists exactly if the last comparable check saw the name diverge; it has
      that check's kind and time, and the time its present stretch began. */
  lemma {:induction false} RowIsExact(looks: seq<Look>, name: string)
    ensures var row := Seen(looks, name).row;
            && (row.Some? <==> LastLook(looks).Some? && Diverges(looks[LastLook(looks).value], name).Some?)
            && (row.Some? ==> exists i: nat :: Explains(looks, name, row.value, i))
    decreases |looks|
  {
    if looks != [] {
      var pre, c := looks[..|looks| - 1], looks[|looks| - 1];
      RowIsExact(pre, name);
      assert looks == pre + [c];
      var was, row := Seen(pre, name).row, Seen(looks, name).row;
      KindIs(c, name);
      hide KindOf, Diverges, Notices, Entries, Seen, LastLook, Began;
      if was.Some? && row.Some? {
        var i: nat :| Explains(pre, name, was.value, i);
        BeganGoesOn(pre, c, name, i);
        assert Explains(looks, name, row.value, i);
      } else if row.Some? {
        assert looks[..|pre|] == pre;
        assert Began(looks, name, |pre|);
        assert Explains(looks, name, row.value, |pre|);
      }
    }
  }

  // ----- what the trail says -----

  /** The kind that a trail leaves open, reading nothing but the trail; `Broken` if the
      trail is not blocks of divergence ended by clearance, each change starting from
      the kind before it. */
  datatype Reading = Closed | Open(kind: Kind) | Broken

  function Read(trail: seq<Entry>): Reading {
    if trail == [] then Closed
    else
      match (Read(trail[..|trail| - 1]), trail[|trail| - 1])
      case (Closed, Found(_, k, _)) => Open(k)
      case (Open(k), Changed(_, from, to, _)) => if from == k && to != k then Open(to) else Broken
      case (Open(k), Cleared(_, from, _)) => if from == k then Closed else Broken
      case _ => Broken
  }

  /** Over every run the trail is well-formed, and it says whether there is a row and
      of what kind. */
  lemma {:induction false} TrailTellsTheRow(looks: seq<Look>, name: string)
    ensures var v := Seen(looks, name);
            Read(v.trail) == if v.row.None? then Closed else Open(v.row.value.kind)
  {
    if looks != [] {
      var pre, c := looks[..|looks| - 1], looks[|looks| - 1];
      TrailTellsTheRow(pre, name);
      if c.file.Some? {
        KindIs(c, name);
        var v, kind := Seen(pre, name), Diverges(c, name);
        var more := Entries(name, v.row, kind, c.now);
        assert |more| == 1 ==> (v.trail + more)[..|v.trail|] == v.trail;
        assert |more| == 0 ==> v.trail + more == v.trail;
        hide KindOf, Diverges, Seen, Notices;
      }
    }
  }

  /** The entry says of this check what the check saw, and when. */
  predicate SeenAt(e: Entry, c: Look, name: string) {
    && e.name == name && e.at == c.now && c.file.Some?
    && Diverges(c, name) == if e.Cleared? then None else Some(e.kind)
  }

  predicate ToldAt(n: Notice, c: Look, name: string) {
    && n.name == name && n.at == c.now && c.file.Some?
    && Diverges(c, name) == if n.Info? then None else Some(n.kind)
  }

  ghost predicate SomeCheckSaw(e: Entry, looks: seq<Look>, name: string) {
    exists i :: 0 <= i < |looks| && SeenAt(e, looks[i], name)
  }

  ghost predicate SomeCheckTold(n: Notice, looks: seq<Look>, name: string) {
    exists i :: 0 <= i < |looks| && ToldAt(n, looks[i], name)
  }

  /** Over every run each entry of the trail and each notice is of one check that could
      compare: it has that check's time, and says of the name what that check saw. */
  lemma {:induction false} EntriesAreOfChecks(looks: seq<Look>, name: string)
    ensures var v := Seen(looks, name);
            && (forall e :: e in v.trail ==> SomeCheckSaw(e, looks, name))
            && (forall n :: n in v.notices ==> SomeCheckTold(n, looks, name))
  {
    if looks != [] {
      var pre, c := looks[..|looks| - 1], looks[|looks| - 1];
      EntriesAreOfChecks(pre, name);
      KindIs(c, name);
      var u, v := Seen(pre, name), Seen(looks, name);
      hide Seen, KindOf, Diverges;
      forall e | e in v.trail ensures SomeCheckSaw(e, looks, name) {
        assert e in u.trail || SeenAt(e, looks[|pre|], name);
        if SomeCheckSaw(e, pre, name) {
          var i :| 0 <= i < |pre| && SeenAt(e, pre[i], name);
          assert SeenAt(e, looks[i], name);
        }
      }
      forall n | n in v.notices ensures SomeCheckTold(n, looks, name) {
        assert n in u.notices || ToldAt(n, looks[|pre|], name);
        if SomeCheckTold(n, pre, name) {
          var i :| 0 <= i < |pre| && ToldAt(n, pre[i], name);
          assert ToldAt(n, looks[i], name);
        }
      }
    }
  }

  // ----- how often it notifies -----

  /** Two neighbouring warnings of one kind are a renotify period apart. */
  ghost predicate Throttled(notices: seq<Notice>) {
    forall i :: 0 <= i < |notices| - 1
                && notices[i].Warn? && notices[i + 1].Warn? && notices[i].kind == notices[i + 1].kind ==>
      notices[i + 1].at - notices[i].at >= RENOTIFY_SECS
  }

  /** Over every run repeats are throttled, and a row that is on record was announced:
      the last notice is the warning of its kind at its `lastReported`, and it is less
      than a renotify period old as of the last check. */
  lemma {:induction false} RepeatsAreThrottled(looks: seq<Look>, name: string)
    ensures var v := Seen(looks, name);
            && Throttled(v.notices)
            && (v.row.Some? ==> v.row.value.lastReported.Some? && v.notices != []
                                && v.notices[|v.notices| - 1] == Warn(name, v.row.value.kind,
                                      v.row.value.lastReported.value))
            && (v.row.Some? ==> v.row.value.lastSeen - v.row.value.lastReported.value < RENOTIFY_SECS)
            && (v.row.None? ==> v.notices == [] || v.notices[|v.notices| - 1].Info?)
  {
    if looks != [] {
      var pre, c := looks[..|looks| - 1], looks[|looks| - 1];
      RepeatsAreThrottled(pre, name);
      if c.file.Some? {
        hide KindOf, Seen, Entries;
      }
    }
  }
}
