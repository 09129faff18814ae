/** The rendered text and its gate: `renderManaged` (fleet/src/managed/render.ts)
    and `validateManaged` (fleet/src/managed/validate.ts). */
module ManagedValidate {
  import opened Wrappers
  import opened Text
  import opened ManagedRender

  const HEADER_LINES := [
    "# managed.toml — WRITTEN BY" + " THE VPS BRAIN (fleetctl)." + " DO NOT EDIT.",
    "# Hand edits are overwritten" + " on the next reconcile." + " Precedence on the box:",
    "# env > managed.toml >" + " config.toml > default." + " Disable locally with",
    "# [managed] enabled" + " = false in" + " config.toml."
  ]

  function Inputs(fleetToml: Option<string>, boxToml: Option<string>): seq<string> {
    (if fleetToml.Some? then [fleetToml.value] else []) + (if boxToml.Some? then [boxToml.value] else [])
  }

  function RenderManaged(fleetToml: Option<string>, boxToml: Option<string>): string {
    var inputs := Inputs(fleetToml, boxToml);
    var header := Join(HEADER_LINES) + "\n";
    if inputs == [] then header
    else
      var body := MergedText(inputs);
      if body == "" then header else header + body + "\n"
  }

  // ----- the box over the fleet -----

  lemma {:induction false} AssignmentsGrow(ps: seq<Line>, qs: seq<Line>)
    ensures Assignments(ps) <= Assignments(ps + qs)
  {
    if qs == [] {
      assert ps + qs == ps;
    } else {
      AssignmentsGrow(ps, Front(qs));
      assert Front(ps + qs) == ps + Front(qs);
    }
  }

  lemma ParseAppend(a: seq<string>, b: seq<string>)
    ensures Parse(a + b) == Parse(a) + Parse(b)
  {
    hide Map, Classify;
    MapAppend(a, b, Classify);
  }

  lemma {:induction false} LastOfTwo(a: seq<Entry>, b: seq<Entry>, e: Entry)
    requires HasPair(a + b, e)
    ensures HasPair(b, e) ==> LastValue(a + b, e.table, e.key) == LastValue(b, e.table, e.key)
    ensures !HasPair(b, e) ==> HasPair(a, e) && LastValue(a + b, e.table, e.key) == LastValue(a, e.table, e.key)
  {
    if b == [] {
      assert a + b == a;
    } else {
      assert Last(a + b) == Last(b) && Front(a + b) == a + Front(b);
      if SamePair(Last(b), e) {
        assert SamePair(b[|b| - 1], e);
      } else {
        var m :| 0 <= m < |a + b| && SamePair((a + b)[m], e);
        assert SamePair(Front(a + b)[m], e);
        LastOfTwo(a, Front(b), e);
        if HasPair(b, e) {
          var n :| 0 <= n < |b| && SamePair(b[n], e);
          assert SamePair(Front(b)[n], e);
        } else {
          assert forall n :: 0 <= n < |Front(b)| ==> Front(b)[n] == b[n];
        }
      }
    }
  }

  /** A box's own file is read after the fleet's, in the table that the fleet's leaves in
      force, and overrides it pair by pair: while no two pairs share an id, a merged pair has
      its last value there if it is assigned there, and its last value for the fleet if not. */
  lemma BoxOverridesFleet(fleet: string, box: string)
    ensures var all := Assignments(Parse(Lines(fleet) + Lines(box)));
            var ofFleet := Assignments(Parse(Lines(fleet)));
            var es := Merged(Inputs(Some(fleet), Some(box)));
            && ofFleet <= all
            && (CollisionFree(all) ==>
                  Covers(es, all) && forall m :: 0 <= m < |es| ==> Overrides(all[|ofFleet|..], ofFleet, es[m]))
  {
    var all, ofFleet := Assignments(Parse(Lines(fleet) + Lines(box))), Assignments(Parse(Lines(fleet)));
    TwoInputs(fleet, box);
    hide *;
    ParseAppend(Lines(fleet), Lines(box));
    AssignmentsGrow(Parse(Lines(fleet)), Parse(Lines(box)));
    MergeIsLastWins(all);
    var es, ofBox := Merge(all), all[|ofFleet|..];
    assert all == ofFleet + ofBox;
    if CollisionFree(all) {
      forall m | 0 <= m < |es| ensures Overrides(ofBox, ofFleet, es[m]) {
        LastHeld(all, es, m);
        LastOfTwo(ofFleet, ofBox, es[m]);
        OverridesIs(ofBox, ofFleet, es[m]);
      }
    }
  }

  ghost predicate Overrides(ofBox: seq<Entry>, ofFleet: seq<Entry>, e: Entry) {
    if HasPair(ofBox, e) then e.value == LastValue(ofBox, e.table, e.key)
    else HasPair(ofFleet, e) && e.value == LastValue(ofFleet, e.table, e.key)
  }

  lemma OverridesIs(ofBox: seq<Entry>, ofFleet: seq<Entry>, e: Entry)
    requires HasPair(ofBox, e) ==> e.value == LastValue(ofBox, e.table, e.key)
    requires !HasPair(ofBox, e) ==> HasPair(ofFleet, e) && e.value == LastValue(ofFleet, e.table, e.key)
    ensures Overrides(ofBox, ofFleet, e)
  {
  }

  lemma LastHeld(all: seq<Entry>, es: seq<Entry>, m: nat)
    requires AllHoldLast(all, es) && m < |es|
    ensures HasPair(all, es[m]) && es[m].value == LastValue(all, es[m].table, es[m].key)
  {
    var e := es[m];
    assert HoldsLast(all, e);
    assert SamePair(all[FirstAt(all, e.table, e.key)], e);
  }

  lemma TwoInputs(fleet: string, box: string)
    ensures Merged(Inputs(Some(fleet), Some(box))) == Merge(Assignments(Parse(Lines(fleet) + Lines(box))))
  {
    hide Lines, Merge, Assignments, Parse;
    var inputs := [fleet, box];
    assert Inputs(Some(fleet), Some(box)) == inputs;
    assert Front(inputs) == [fleet] && Front([fleet]) == [];
    assert AllLines([]) == [] && AllLines([fleet]) == [] + Lines(fleet) == Lines(fleet);
  }

  datatype Reason =
    | FleetTable
    | OutsideTable(table: string)
    | UnparsableLine(line: string)
    | EmptyKey(line: string)
    | TagsKey
    | KeepawakeKey(key: string)

  const ALLOWED_TABLES := {"ssh", "tailscale", "update", "managed", "keepawake"}
  predicate KnownTable(name: string) {
    name in ALLOWED_TABLES
  }

  const KEEPAWAKE_KEYS := {"interval_min"}

  predicate IsTags(sec: string, key: string) {
    sec == "tailscale" && key == "tags"
  }

  predicate IsStrayKeepawake(sec: string, key: string) {
    sec == "keepawake" && key !in KEEPAWAKE_KEYS
  }

  function LineReasons(p: Line, sec: string): seq<Reason> {
    match p
    case Ignored => []
    case Unparsable(text) => [UnparsableLine(text)]
    case Header(n) =>
      if n == "fleet" then [FleetTable]
      else if !KnownTable(n) then [OutsideTable(n)] else []
    case Assign(k, _, text) =>
      if k == "" then [EmptyKey(text)]
      else
        (if IsTags(sec, k) then [TagsKey] else [])
        + (if IsStrayKeepawake(sec, k) then [KeepawakeKey(k)] else [])
  }

  function Reasons(ps: seq<Line>): seq<Reason> {
    if ps == [] then [] else Reasons(Front(ps)) + LineReasons(Last(ps), Section(Front(ps)))
  }

  function RefusalsOf(text: string): seq<Reason> {
    Reasons(Parse(Lines(text)))
  }

  /** What one line adds to the reasons, and the table in force after it. */
  method CheckLine(p: Line, sec: string) returns (sec': string, rs: seq<Reason>)
    ensures rs == LineReasons(p, sec)
    ensures sec' == if p.Header? then p.name else sec
  {
    sec' := sec;
    rs := [];
    match p {
      case Ignored =>
      case Header(name) =>
        sec' := name;
        if sec' == "fleet" {
          rs := rs + [FleetTable];
        } else if !KnownTable(sec') {
          rs := rs + [OutsideTable(sec')];
        }
      case Unparsable(line) =>
        rs := rs + [UnparsableLine(line)];
      case Assign(k, _, line) =>
        if k == "" {
          rs := rs + [EmptyKey(line)];
        } else {
          if IsTags(sec, k) {
            rs := rs + [TagsKey];
          }
          if IsStrayKeepawake(sec, k) {
            rs := rs + [KeepawakeKey(k)];
          }
        }
    }
  }

  lemma NothingRead(text: string)
    ensures Section(Parse([])) == "" && Reasons(Parse([])) == []
    ensures RefusalsOf(text) == Reasons(Parse(Lines(text)))
  {
    assert Parse([]) == [];
  }

  method ValidateManaged(text: string) returns (ok: bool, reasons: seq<Reason>)
    ensures reasons == RefusalsOf(text)
    ensures ok <==> reasons == []
  {
    hide *;
    NothingRead(text);
    reasons := [];
    var sec := "";
    var ls := Lines(text);
    for n := 0 to |ls|
      invariant sec == Section(Parse(ls[..n])) && reasons == Reasons(Parse(ls[..n]))
    {
      var p := ReadLine(ls[n], ls[..n]);
      assert ls[..n + 1] == ls[..n] + [ls[n]];
      ReasonsSnoc(Parse(ls[..n]), p);
      var rs;
      sec, rs := CheckLine(p, sec);
      reasons := reasons + rs;
    }
    assert ls[..|ls|] == ls;
    ok := reasons == [];
  }

  // ----- what each refusal says of the text -----

  predicate HeaderNamed(line: string, name: string) {
    IsHeader(line) && TrimBlanks(line[1..|line| - 1]) == name
  }

  /** Neither blank, comment nor header. */
  predicate IsSetting(line: string) {
    line != "" && line[0] != '#' && !IsHeader(line)
  }

  predicate AssignsTo(line: string, key: string) {
    IsSetting(line) && exists eq | 0 <= eq < |line| :: KeyEndsAt(line, eq) && TrimBlanks(line[..eq]) == key
  }

  predicate KeyEndsAt(line: string, eq: nat) {
    eq < |line| && line[eq] == '=' && '=' !in line[..eq]
  }

  /** A trimmed line in the table `sec` gives this reason. */
  predicate Refuses(r: Reason, line: string, sec: string) {
    match r
    case FleetTable => HeaderNamed(line, "fleet")
    case OutsideTable(name) => HeaderNamed(line, name) && name != "fleet" && name !in ALLOWED_TABLES
    case UnparsableLine(text) => text == line && IsSetting(line) && '=' !in line
    case EmptyKey(text) => text == line && AssignsTo(line, "")
    case TagsKey => sec == "tailscale" && AssignsTo(line, "tags")
    case KeepawakeKey(key) => sec == "keepawake" && key != "" && key != "interval_min" && AssignsTo(line, key)
  }

  lemma KeyIsUpToFirst(line: string, key: string)
    ensures AssignsTo(line, key)
            <==> IsSetting(line) && IndexOf(line, '=') >= 0 && TrimBlanks(line[..IndexOf(line, '=')]) == key
  {
    hide TrimBlanks, IsHeader;
    var i := IndexOf(line, '=');
    if i >= 0 {
      assert KeyEndsAt(line, i);
      forall eq | 0 <= eq < |line| && KeyEndsAt(line, eq) ensures eq == i {
      }
    } else {
      assert forall eq :: 0 <= eq < |line| ==> line[eq] in line;
    }
  }

  lemma ShapeOf(raw: string)
    ensures var line := TrimBlanks(raw);
            match Classify(raw)
            case Ignored => !IsHeader(line) && !IsSetting(line)
            case Header(name) => HeaderNamed(line, name) && !IsSetting(line)
            case Unparsable(text) => text == line && IsSetting(line) && IndexOf(line, '=') < 0
            case Assign(key, _, text) => text == line && AssignsTo(line, key)
  {
    KeyIsUpToFirst(TrimBlanks(raw), if Classify(raw).Assign? then Classify(raw).key else "");
    hide TrimBlanks, IndexOf, AssignsTo;
  }

  lemma OneShape(line: string, key: string, other: string)
    ensures AssignsTo(line, key) ==> IsSetting(line) && '=' in line && !IsHeader(line)
    ensures AssignsTo(line, key) && AssignsTo(line, other) ==> key == other
    ensures IsSetting(line) ==> !IsHeader(line)
  {
    KeyIsUpToFirst(line, key);
    KeyIsUpToFirst(line, other);
    hide IsHeader, AssignsTo, TrimBlanks;
  }

  lemma HeaderIsRefused(line: string, name: string, sec: string, r: Reason)
    requires HeaderNamed(line, name) && !IsSetting(line)
    ensures r in LineReasons(Header(name), sec) <==> Refuses(r, line, sec)
  {
    hide TrimBlanks, IsHeader, IsSetting;
    match r
    case FleetTable =>
    case OutsideTable(_) =>
    case _ =>
  }

  lemma SettingIsRefused(line: string, key: string, value: string, sec: string, r: Reason)
    requires AssignsTo(line, key)
    ensures r in LineReasons(Assign(key, value, line), sec) <==> Refuses(r, line, sec)
  {
    OneShape(line, key, match r
                        case TagsKey => "tags"
                        case KeepawakeKey(k) => k
                        case _ => "");
    hide AssignsTo, IsHeader, IsSetting, TrimBlanks;
    match r
    case EmptyKey(_) =>
    case TagsKey =>
    case KeepawakeKey(_) =>
    case _ =>
  }

  lemma LineIsRefused(raw: string, sec: string, r: Reason)
    ensures r in LineReasons(Classify(raw), sec) <==> Refuses(r, TrimBlanks(raw), sec)
  {
    var line := TrimBlanks(raw);
    ShapeOf(raw);
    match Classify(raw)
    case Header(name) => HeaderIsRefused(line, name, sec, r);
    case Assign(key, value, _) => SettingIsRefused(line, key, value, sec, r);
    case Unparsable(_) => NothingElse(line, sec, r);
    case Ignored => NothingElse(line, sec, r);
  }

  lemma NothingElse(line: string, sec: string, r: Reason)
    requires !IsHeader(line) && (IndexOf(line, '=') < 0 || !IsSetting(line))
    ensures Refuses(r, line, sec) <==> r == UnparsableLine(line) && IsSetting(line)
  {
    KeyIsUpToFirst(line, "");
    KeyIsUpToFirst(line, "tags");
    KeyIsUpToFirst(line, if r.KeepawakeKey? then r.key else "");
    hide TrimBlanks, IsHeader, AssignsTo;
  }

  ghost predicate RefusedAt(r: Reason, ls: seq<string>, i: nat) {
    i < |ls| && Refuses(r, TrimBlanks(ls[i]), Section(Parse(ls[..i])))
  }

  /** The lines among the first n that have this reason. */
  ghost function RefusedCount(r: Reason, ls: seq<string>, n: nat): nat {
    if n == 0 then 0 else RefusedCount(r, ls, n - 1) + if RefusedAt(r, ls, n - 1) then 1 else 0
  }

  lemma OneReasonOnce(raw: string, sec: string, r: Reason)
    ensures multiset(LineReasons(Classify(raw), sec))[r] == if Refuses(r, TrimBlanks(raw), sec) then 1 else 0
  {
    LineIsRefused(raw, sec, r);
    hide Refuses, Classify, TrimBlanks, KnownTable, IsTags, IsStrayKeepawake;
  }

  lemma {:induction false} ReasonsOfLines(ls: seq<string>, n: nat, r: Reason)
    requires n <= |ls|
    ensures multiset(Reasons(Parse(ls[..n])))[r] == RefusedCount(r, ls, n)
  {
    hide *;
    if n > 0 {
      var ps := Parse(ls[..n - 1]);
      ReasonsOfLines(ls, n - 1, r);
      assert ls[..n] == ls[..n - 1] + [ls[n - 1]];
      ParseOne(ls[..n - 1], ls[n - 1]);
      ReasonsSnoc(ps, Classify(ls[n - 1]));
      OneReasonOnce(ls[n - 1], Section(ps), r);
      CountOne(r, ls, n);
    } else {
      NoneCounted(ls, r);
    }
  }

  lemma CountOne(r: Reason, ls: seq<string>, n: nat)
    requires 0 < n <= |ls|
    ensures RefusedCount(r, ls, n)
            == RefusedCount(r, ls, n - 1)
               + if Refuses(r, TrimBlanks(ls[n - 1]), Section(Parse(ls[..n - 1]))) then 1 else 0
  {
    hide Refuses, TrimBlanks, Section, Parse;
  }

  lemma NoneCounted(ls: seq<string>, r: Reason)
    ensures multiset(Reasons(Parse(ls[..0])))[r] == RefusedCount(r, ls, 0)
  {
    assert Parse([]) == [];
  }

  lemma ParseOne(ls: seq<string>, raw: string)
    ensures Parse(ls + [raw]) == Parse(ls) + [Classify(raw)]
  {
    ParseAppend(ls, [raw]);
    hide Classify;
    assert Parse([raw]) == [Classify(raw)];
  }

  lemma {:induction false} CountedSomewhere(r: Reason, ls: seq<string>, n: nat)
    ensures RefusedCount(r, ls, n) > 0 <==> exists i: nat :: i < n && RefusedAt(r, ls, i)
  {
    hide RefusedAt;
    if n > 0 {
      CountedSomewhere(r, ls, n - 1);
    }
  }

  /** The gate gives each reason as often as lines of the text have it, read in the table in
      force there; so a text passes exactly if no line has any. */
  lemma ReasonsAreExact(text: string, r: Reason)
    ensures multiset(RefusalsOf(text))[r] == RefusedCount(r, Lines(text), |Lines(text)|)
    ensures r in RefusalsOf(text) <==> exists i: nat :: i < |Lines(text)| && RefusedAt(r, Lines(text), i)
  {
    var ls := Lines(text);
    NothingRead(text);
    ReasonsOfLines(ls, |ls|, r);
    assert ls[..|ls|] == ls;
    CountedSomewhere(r, ls, |ls|);
    hide Lines, Reasons, RefusedAt, RefusedCount, Parse;
    assert r in RefusalsOf(text) <==> multiset(RefusalsOf(text))[r] > 0;
  }

  /** What the gate is for: this pair may be pushed to a box. */
  predicate Allowed(e: Entry) {
    && KnownTable(e.table)
    && e.key != ""
    && !(e.table == "tailscale" && e.key == "tags")
    && (e.table == "keepawake" ==> e.key == "interval_min")
  }

  /** The first entries whose table is the print loop's starting value: they print
      without a header, so that no table is checked. */
  ghost predicate InLead(es: seq<Entry>, i: nat) {
    i < |es| && forall j :: 0 <= j <= i ==> es[j].table == SENTINEL
  }

  ghost predicate AllLead(es: seq<Entry>) {
    forall i :: 0 <= i < |es| ==> es[i].table == SENTINEL
  }

  /** What the gate lets through at this place of a printed list. */
  ghost predicate Passable(es: seq<Entry>, i: nat) {
    i < |es| && if InLead(es, i) then es[i].key != "" else Allowed(es[i])
  }

  ghost predicate AllPassable(es: seq<Entry>) {
    forall i :: 0 <= i < |es| ==> Passable(es, i)
  }

  ghost predicate AllAllowed(es: seq<Entry>) {
    forall i :: 0 <= i < |es| ==> Allowed(es[i])
  }

  lemma EqualsIsOutside(name: string)
    requires '=' in name
    ensures name != "fleet" && !KnownTable(name)
  {
  }

  lemma FleetIsOutside()
    ensures !KnownTable("fleet")
  {
  }

  lemma LineIsClean(e: Entry, p: Line, sec: string)
    requires p.Header? || (p.Assign? && p.key == e.key && p.value == e.value)
    requires p.Header? ==> '=' in p.name
    ensures LineReasons(Header(e.table), sec) == [] <==> KnownTable(e.table)
    ensures KnownTable(e.table) ==> (LineReasons(p, e.table) == [] <==> p.Assign? && Allowed(e))
    ensures p.Header? ==> LineReasons(p, sec) != []
    ensures LineReasons(p, "") == [] <==> p.Assign? && e.key != ""
  {
    if p.Header? {
      EqualsIsOutside(p.name);
    }
    FleetIsOutside();
    hide KnownTable;
  }

  lemma ReasonsSnoc(ps: seq<Line>, p: Line)
    ensures Reasons(ps + [p]) == Reasons(ps) + LineReasons(p, Section(ps))
    ensures Section(ps + [p]) == if p.Header? then p.name else Section(ps)
  {
    assert Front(ps + [p]) == ps;
  }

  /** The reasons one more printed entry adds. */
  lemma LayoutReasonsStep(es: seq<Entry>, ps: seq<Line>)
    requires es != [] && Fits(es, ps)
    requires Last(ps).Header? ==> '=' in Last(ps).name
    ensures var pre := Layout(Front(es), Front(ps));
            && (Reasons(Layout(es, ps)) == [] ==> Reasons(pre) == [])
            && (Reasons(pre) == [] && (Headed(es) || (Section(pre) == Last(es).table && KnownTable(Last(es).table)))
                ==> (Reasons(Layout(es, ps)) == [] <==> Last(ps).Assign? && Allowed(Last(es))))
            && (Reasons(pre) == [] && !Headed(es) && Section(pre) == ""
                ==> (Reasons(Layout(es, ps)) == [] <==> Last(ps).Assign? && Last(es).key != ""))
            && (Last(ps).Assign? ==> Section(Layout(es, ps)) == if Headed(es) then Last(es).table else Section(pre))
  {
    var pre, e, p := Layout(Front(es), Front(ps)), Last(es), Last(ps);
    LineIsClean(e, p, Section(pre));
    hide LineReasons, Reasons, Section, KnownTable, Allowed;
    if Headed(es) {
      ReasonsSnoc(pre, Header(e.table));
      ReasonsSnoc(pre + [Header(e.table)], p);
    } else {
      ReasonsSnoc(pre, p);
      assert pre + [] == pre;
    }
  }

  lemma AllowedTable(e: Entry)
    ensures Allowed(e) ==> KnownTable(e.table)
    ensures e.table == SENTINEL || e.table == "" ==> !Allowed(e)
  {
    assert SENTINEL[0] == '\U{0002}';
  }

  /** The conditions on a printed list, one entry at a time. */
  lemma PeelPassable(es: seq<Entry>)
    requires es != []
    ensures AllPassable(es) <==> AllPassable(Front(es)) && Passable(es, |es| - 1)
    ensures AllLead(es) <==> AllLead(Front(es)) && !Headed(es)
    ensures Passable(es, |es| - 1) <==> if AllLead(es) then Last(es).key != "" else Allowed(Last(es))
    ensures !AllLead(Front(es)) ==> Front(es) != [] && (AllPassable(Front(es)) ==> KnownTable(Last(Front(es)).table))
    ensures !AllLead(es) && !Headed(es) ==> Front(es) != [] && Last(Front(es)).table == Last(es).table
  {
    hide Allowed, KnownTable;
    var n := |es| - 1;
    forall i: nat | i < n ensures Passable(Front(es), i) == Passable(es, i) {
      assert InLead(Front(es), i) == InLead(es, i);
    }
    assert InLead(es, n) <==> AllLead(es);
    if !AllLead(Front(es)) {
      AllowedTable(Last(Front(es)));
      assert !InLead(Front(es), n - 1);
      assert AllPassable(Front(es)) ==> Passable(Front(es), n - 1);
    }
  }

  /** For every printed list: nothing is refused exactly when every line is an
      assignment and every entry passable. */
  lemma {:induction false} LayoutReasons(es: seq<Entry>, ps: seq<Line>)
    requires Fits(es, ps) && HeadersMarked(ps)
    ensures Reasons(Layout(es, ps)) == [] <==> AllAssign(ps) && AllPassable(es)
    ensures AllAssign(ps) ==> Section(Layout(es, ps)) == if AllLead(es) then "" else Last(es).table
  {
    if es != [] {
      Peel(es, ps);
      PeelPassable(es);
      LayoutReasons(Front(es), Front(ps));
      hide Reasons, Section, KnownTable, Layout, Allowed, Fits, HeadersMarked, AllAssign, AllPassable, Passable,
          AllLead, Headed;
      LayoutReasonsStep(es, ps);
    }
  }

  lemma PassableIsAllowed(es: seq<Entry>)
    ensures FirstTablePrinted(es) ==> (AllPassable(es) <==> AllAllowed(es))
    ensures !FirstTablePrinted(es) ==> !AllAllowed(es)
  {
    hide Allowed;
    if FirstTablePrinted(es) {
      forall i: nat | i < |es| ensures Passable(es, i) <==> Allowed(es[i]) {
        assert es[0].table != SENTINEL;
      }
    } else {
      AllowedTable(es[0]);
    }
  }

  /** Comment lines ahead of a text change neither its table nor its reasons. */
  lemma {:induction false} CommentsAreInert(cs: seq<Line>, ps: seq<Line>)
    requires forall i :: 0 <= i < |cs| ==> cs[i] == Ignored
    ensures Section(cs + ps) == Section(ps) && Reasons(cs + ps) == Reasons(ps)
    decreases |ps|, |cs|
  {
    if ps != [] {
      assert Front(cs + ps) == cs + Front(ps);
      hide LineReasons;
      CommentsAreInert(cs, Front(ps));
    } else if cs != [] {
      assert cs + ps == cs && Front(cs) + [] == Front(cs);
      CommentsAreInert(Front(cs), []);
    }
  }

  lemma CommentLine(a: string, b: string, c: string)
    requires a != "" && a[0] == '#' && c != "" && !IsBlank(c[|c| - 1])
    requires '\n' !in a && '\n' !in b && '\n' !in c
    ensures Classify(a + b + c) == Ignored && '\n' !in a + b + c
  {
    hide Trim, IndexOf;
    var line := a + b + c;
    TrimCore("", line, "", IsBlank);
    assert "" + line + "" == line;
  }

  lemma HeaderLine0()
    ensures Classify(HEADER_LINES[0]) == Ignored && '\n' !in HEADER_LINES[0]
  {
    hide Classify;
    CommentLine("# managed.toml — WRITTEN BY", " THE VPS BRAIN (fleetctl).", " DO NOT EDIT.");
  }

  lemma HeaderLine1()
    ensures Classify(HEADER_LINES[1]) == Ignored && '\n' !in HEADER_LINES[1]
  {
    hide Classify;
    CommentLine("# Hand edits are overwritten", " on the next reconcile.", " Precedence on the box:");
  }

  lemma HeaderLine2()
    ensures Classify(HEADER_LINES[2]) == Ignored && '\n' !in HEADER_LINES[2]
  {
    hide Classify;
    CommentLine("# env > managed.toml >", " config.toml > default.", " Disable locally with");
  }

  lemma HeaderLine3()
    ensures Classify(HEADER_LINES[3]) == Ignored && '\n' !in HEADER_LINES[3]
  {
    hide Classify;
    CommentLine("# [managed] enabled", " = false in", " config.toml.");
  }

  lemma HeaderLinesAreComments()
    ensures forall i :: 0 <= i < |HEADER_LINES| ==> Classify(HEADER_LINES[i]) == Ignored
    ensures NoNewlines(HEADER_LINES) && HEADER_LINES != []
  {
    hide Classify;
    HeaderLine0();
    HeaderLine1();
    HeaderLine2();
    HeaderLine3();
    FourOf(HEADER_LINES);
  }

  lemma FourOf(hs: seq<string>)
    requires |hs| == 4
    requires Classify(hs[0]) == Classify(hs[1]) == Classify(hs[2]) == Classify(hs[3]) == Ignored
    requires '\n' !in hs[0] && '\n' !in hs[1] && '\n' !in hs[2] && '\n' !in hs[3]
    ensures forall i :: 0 <= i < |hs| ==> Classify(hs[i]) == Ignored
    ensures NoNewlines(hs)
  {
    hide Classify;
  }

  /** The header, and the blank piece after the last newline, are inert. */
  lemma FramedReasons(hs: seq<string>, ls: seq<string>)
    requires forall i :: 0 <= i < |hs| ==> Classify(hs[i]) == Ignored
    ensures Reasons(Parse(hs + ls + [""])) == Reasons(Parse(ls))
  {
    assert Classify("") == Ignored;
    hide Classify;
    var cs, ps := Map(hs, Classify), Map(ls, Classify);
    MapAppend(hs + ls, [""], Classify);
    MapAppend(hs, ls, Classify);
    assert Map([""], Classify) == [Ignored];
    assert cs + ps + [Ignored] == cs + (ps + [Ignored]);
    assert LineReasons(Ignored, Section(ps)) == [];
    hide Reasons, Map, Section, LineReasons;
    CommentsAreInert(cs, ps + [Ignored]);
    ReasonsSnoc(ps, Ignored);
  }

  lemma BodyLines(es: seq<Entry>)
    requires AllProper(es) && es != []
    ensures Join(Print(es)) != "" && Lines(Join(Print(es)) + "\n") == Print(es) + [""]
  {
    var ls := Print(es);
    PrintHasNoNewlines(es);
    assert Last(ls) == EntryLine(Last(es));
    hide Lines, Print, AllProper;
    LinesOfJoin(ls);
    LinesAppend(Join(ls), "");
    OnlyLine("");
    assert Join(ls) + "\n" + "" == Join(ls) + "\n";
  }

  lemma FramedLines(hs: seq<string>, text: string)
    requires hs != [] && NoNewlines(hs)
    ensures Lines(Join(hs) + "\n" + text) == hs + Lines(text)
  {
    hide Lines, Join;
    LinesOfJoin(hs);
    LinesAppend(Join(hs), text);
  }

  lemma RenderedLines(fleetToml: Option<string>, boxToml: Option<string>)
    ensures Lines(RenderManaged(fleetToml, boxToml)) == HEADER_LINES + Print(Merged(Inputs(fleetToml, boxToml))) + [""]
  {
    var inputs := Inputs(fleetToml, boxToml);
    MergedIsProper(inputs);
    HeaderLinesAreComments();
    RenderedFrom(HEADER_LINES, inputs, Merged(inputs));
  }

  lemma RenderedFrom(hs: seq<string>, inputs: seq<string>, es: seq<Entry>)
    requires hs != [] && NoNewlines(hs) && AllProper(es) && es == Merged(inputs)
    ensures inputs == [] ==> es == []
    ensures (es == [] <==> MergedText(inputs) == "")
    ensures es == [] ==> Lines(Join(hs) + "\n") == hs + Print(es) + [""]
    ensures es != [] ==> Lines(Join(hs) + "\n" + MergedText(inputs) + "\n") == hs + Print(es) + [""]
  {
    var header := Join(hs);
    hide Lines, Join;
    if es == [] {
      FramedLines(hs, "");
      assert header + "\n" == header + "\n" + "";
      OnlyLine("");
      EmptyJoin();
    } else {
      BodyLines(es);
      FramedLines(hs, MergedText(inputs) + "\n");
      assert header + "\n" + MergedText(inputs) + "\n" == header + "\n" + (MergedText(inputs) + "\n");
    }
  }

  lemma EmptyJoin()
    ensures Join([]) == ""
  {
  }

  lemma RenderedReasons(fleetToml: Option<string>, boxToml: Option<string>)
    ensures var es := Merged(Inputs(fleetToml, boxToml));
            RefusalsOf(RenderManaged(fleetToml, boxToml)) == Reasons(Layout(es, PrintedLines(es)))
  {
    var es := Merged(Inputs(fleetToml, boxToml));
    RenderedLines(fleetToml, boxToml);
    HeaderLinesAreComments();
    FramedReasons(HEADER_LINES, Print(es));
    MergedIsProper(Inputs(fleetToml, boxToml));
    PrintIsLayout(es);
  }

  /** The gate run on the rendered text is exactly semantic: it passes iff no merged pair
      prints as a header and every one is passable. That is, every pair may be pushed;
      or the first ones are of the sentinel table, which always slips past. */
  lemma ValidationIsSemantic(fleetToml: Option<string>, boxToml: Option<string>)
    ensures var es := Merged(Inputs(fleetToml, boxToml));
            var passes := RefusalsOf(RenderManaged(fleetToml, boxToml)) == [];
            && (passes <==> AllPassable(es) && NoPhantom(es))
            && (FirstTablePrinted(es) ==> (passes <==> AllAllowed(es) && NoPhantom(es)))
            && (!FirstTablePrinted(es) ==> !AllAllowed(es))
  {
    var es := Merged(Inputs(fleetToml, boxToml));
    hide RefusalsOf, RenderManaged, Merged, AllPassable, AllAllowed, PrintedLines, FirstTablePrinted, NoPhantom;
    RenderedReasons(fleetToml, boxToml);
    MergedIsProper(Inputs(fleetToml, boxToml));
    PrintedLinesFit(es);
    LayoutReasons(es, PrintedLines(es));
    PassableIsAllowed(es);
  }

  /** A key placed before any table prints under `[]` and is refused. */
  lemma TablelessKeyIsRefused(fleetToml: Option<string>, boxToml: Option<string>, i: nat)
    requires i < |Merged(Inputs(fleetToml, boxToml))| && Merged(Inputs(fleetToml, boxToml))[i].table == ""
    ensures RefusalsOf(RenderManaged(fleetToml, boxToml)) != []
  {
    hide RefusalsOf, RenderManaged, Merged, Allowed;
    ValidationIsSemantic(fleetToml, boxToml);
    NotPassable(Merged(Inputs(fleetToml, boxToml)), i);
  }

  lemma NotPassable(es: seq<Entry>, i: nat)
    requires i < |es| && es[i].table == ""
    ensures !AllPassable(es)
  {
    AllowedTable(es[i]);
    hide Allowed;
    assert SENTINEL != "";
    assert !Passable(es, i);
  }

  ghost predicate AllParse(rs: seq<Reason>) {
    forall r :: r in rs ==> !r.UnparsableLine?
  }

  lemma SnocParses(ps: seq<Line>, p: Line)
    requires AllParse(Reasons(ps)) && !p.Unparsable?
    ensures AllParse(Reasons(ps + [p]))
  {
    ReasonsSnoc(ps, p);
    assert AllParse(LineReasons(p, Section(ps)));
    hide LineReasons, Reasons;
  }

  lemma {:induction false} LayoutParses(es: seq<Entry>, ps: seq<Line>)
    requires Fits(es, ps)
    ensures AllParse(Reasons(Layout(es, ps)))
  {
    if es != [] {
      var pre, e, p := Layout(Front(es), Front(ps)), Last(es), Last(ps);
      Peel(es, ps);
      assert !p.Unparsable?;
      assert Layout(es, ps) == (if Headed(es) then pre + [Header(e.table)] else pre) + [p];
      hide *;
      LayoutParses(Front(es), Front(ps));
      if Headed(es) {
        SnocParses(pre, Header(e.table));
      }
      SnocParses(if Headed(es) then pre + [Header(e.table)] else pre, p);
    }
  }

  /** The rendered text is never refused for an unparsable line. */
  lemma RenderedTextParses(fleetToml: Option<string>, boxToml: Option<string>)
    ensures AllParse(RefusalsOf(RenderManaged(fleetToml, boxToml)))
  {
    var es := Merged(Inputs(fleetToml, boxToml));
    RenderedReasons(fleetToml, boxToml);
    MergedIsProper(Inputs(fleetToml, boxToml));
    PrintedLinesFit(es);
    LayoutParses(es, PrintedLines(es));
  }

  /** A text whose first table is the print loop's starting value: it is outside the
      allowed ones, and it passes. */
  lemma SentinelTablePasses()
    ensures Merged(Inputs(Some("[\U{0002}]\nfoo = 1"), None)) == [Entry(SENTINEL, "foo", "1")]
    ensures !Allowed(Entry(SENTINEL, "foo", "1"))
    ensures RefusalsOf(RenderManaged(Some("[\U{0002}]\nfoo = 1"), None)) == []
  {
    var text, e := "[\U{0002}]\nfoo = 1", Entry(SENTINEL, "foo", "1");
    hide RefusalsOf, RenderManaged, Merged;
    assert text == HeaderLine(SENTINEL) + "\n" + EntryLine(e);
    SentinelText(text, e);
    assert Inputs(Some(text), None) == [text] + [] == [text];
    AllowedTable(e);
    hide Allowed;
    ValidationIsSemantic(Some(text), None);
    LonePassable(e);
  }

  lemma LonePassable(e: Entry)
    requires e.table == SENTINEL && e.key == "foo"
    ensures AllPassable([e]) && NoPhantom([e])
  {
    assert "foo"[0] == 'f';
    assert InLead([e], 0);
  }

  lemma SentinelText(text: string, e: Entry)
    requires e == Entry(SENTINEL, "foo", "1") && text == HeaderLine(SENTINEL) + "\n" + EntryLine(e)
    ensures Merged([text]) == [e]
  {
    assert Proper(e) && !Phantom(e) && '\n' !in HeaderLine(SENTINEL) && '\n' !in EntryLine(e);
    EntryLineReads(e);
    HeaderLineReads(e);
    var ls := [HeaderLine(SENTINEL), EntryLine(e)];
    assert ls[1..] == [EntryLine(e)];
    assert text == Join(ls);
    hide Lines, Join, Classify, Proper, Phantom;
    LinesOfJoin(ls);
    MergedOfOne(text);
    HeaderThenEntry(ls, e);
  }

  lemma HeaderThenEntry(ls: seq<string>, e: Entry)
    requires |ls| == 2 && Classify(ls[0]) == Header(e.table)
    requires Classify(ls[1]).Assign? && Classify(ls[1]).key == e.key && Classify(ls[1]).value == e.value
    ensures Merge(Assignments(Parse(ls))) == [e]
  {
    var ps, h, p := Parse(ls), Classify(ls[0]), Classify(ls[1]);
    hide Classify;
    assert ps == [h, p];
    var none: seq<Line> := [];
    assert Front([h, p]) == [h] && Front([h]) == none;
    assert Section([h]) == e.table && Assignments(none) == [] && Assignments([h]) == [];
    assert Assignments([h, p]) == [] + [e];
    var nothing: seq<Entry> := [];
    assert Front([e]) == nothing;
    assert Merge(nothing) == [] && Find(nothing, Id(e)) == 0;
  }
}
