/** The two-pass rewriter of a box's `[fleet]` block (the awk program in
    fleet/src/commands/enroll.ts) and the checker that judges its result
    (`fleetBlockCoherent`, fleet/src/reconcile/discover.ts). */
module FleetBlock {
  import opened Text

  // ----- how a line reads -----

  /** The three keys the rewriter owns inside `[fleet]`. */
  datatype Slot = Vps | Idx | Port

  datatype Kind = Section(fleet: bool) | Active(slot: Slot) | Commented(slot: Slot) | Other

  datatype Want = Want(vps: string, idx: string, port: string)

  predicate IsSpaceOrTab(c: char) {
    c == ' ' || c == '\t'
  }

  function KeyBefore(t: string): string {
    var eq := IndexOf(t, '=');
    if eq < 0 then "" else TrimBlanks(t[..eq])
  }

  function ActiveKey(line: string): string {
    var t := TrimBlanks(line);
    if t == "" || t[0] == '#' then "" else KeyBefore(t)
  }

  function CommentKey(line: string): string {
    var t := TrimBlanks(line);
    if t == "" || t[0] != '#' then "" else KeyBefore(TrimLeft(t[1..], IsSpaceOrTab))
  }

  function SlotKind(active: string, commented: string): Kind {
    if active == "vps" then Active(Vps)
    else if active == "box_index" then Active(Idx)
    else if active == "port" then Active(Port)
    else if commented == "vps" then Commented(Vps)
    else if commented == "box_index" then Commented(Idx)
    else if commented == "port" then Commented(Port)
    else Other
  }

  /** A line in the second pass, whose section test is `/^[ \t]*\[/`. */
  function KindOf(line: string): Kind {
    var s := TrimLeft(line, IsSpaceOrTab);
    if s != "" && s[0] == '[' then Section(TrimBlanks(line) == "[fleet]")
    else SlotKind(ActiveKey(line), CommentKey(line))
  }

  /** A line in the first pass, whose section test looks at the trimmed line. */
  function ScanKindOf(line: string): Kind {
    var t := TrimBlanks(line);
    if t != "" && t[0] == '[' then Section(t == "[fleet]")
    else SlotKind(ActiveKey(line), CommentKey(line))
  }

  // ----- the rewriter -----

  function Wanted(w: Want): set<Slot> {
    if w.port == "" then {Vps, Idx} else {Vps, Idx, Port}
  }

  function SlotLine(w: Want, s: Slot): string {
    match s
    case Vps => "vps = \"" + w.vps + "\""
    case Idx => "box_index = " + w.idx
    case Port => "port = " + w.port
  }

  const FLEET_LINE := "[fleet]"

  /** First pass: which of the three keys are active at top level or in `[fleet]`. */
  datatype ScanState = ScanState(scan: bool, have: set<Slot>)

  function ScanStep(c: ScanState, k: Kind): ScanState {
    match k
    case Section(f) => c.(scan := f)
    case Active(s) => if c.scan then c.(have := c.have + {s}) else c
    case _ => c
  }

  function Scan(c: ScanState, ls: seq<string>): ScanState
    decreases ls
  {
    if ls == [] then c else Scan(ScanStep(c, ScanKindOf(ls[0])), ls[1..])
  }

  function Have(ls: seq<string>): set<Slot> {
    Scan(ScanState(true, {}), ls).have
  }

  /** Second pass: `wrote` are the keys already written. */
  datatype State = State(inFleet: bool, seen: bool, wrote: set<Slot>)

  const START := State(false, false, {})

  function Missing(w: Want, wrote: set<Slot>, s: Slot): seq<string> {
    if s in Wanted(w) && s !in wrote then [SlotLine(w, s)] else []
  }

  function Flush(w: Want, wrote: set<Slot>): seq<string> {
    Missing(w, wrote, Vps) + Missing(w, wrote, Idx) + Missing(w, wrote, Port)
  }

  function Next(st: State, k: Kind, have: set<Slot>, w: Want): State {
    match k
    case Section(f) => State(f, st.seen || f, if st.inFleet then st.wrote + Wanted(w) else st.wrote)
    case Active(s) => if st.inFleet && s in Wanted(w) then st.(wrote := st.wrote + {s}) else st
    case Commented(s) => if Fills(st, s, have, w) then st.(wrote := st.wrote + {s}) else st
    case Other => st
  }

  /** A commented key is filled in below when nothing else provides it. */
  predicate Fills(st: State, s: Slot, have: set<Slot>, w: Want) {
    st.inFleet && s in Wanted(w) && s !in have && s !in st.wrote
  }

  function Emit(st: State, line: string, k: Kind, have: set<Slot>, w: Want): seq<string> {
    match k
    case Section(f) => (if st.inFleet then Flush(w, st.wrote) else []) + [line]
    case Active(s) => if !st.inFleet then [line] else if s in Wanted(w) then [SlotLine(w, s)] else []
    case Commented(s) => if Fills(st, s, have, w) then [line, SlotLine(w, s)] else [line]
    case Other => [line]
  }

  function AtEnd(st: State, w: Want): seq<string> {
    if st.inFleet then Flush(w, st.wrote)
    else if !st.seen then [FLEET_LINE] + Flush(w, {})
    else []
  }

  function Pass(st: State, ls: seq<string>, have: set<Slot>, w: Want): seq<string>
    decreases ls
  {
    if ls == [] then AtEnd(st, w)
    else
      var k := KindOf(ls[0]);
      Emit(st, ls[0], k, have, w) + Pass(Next(st, k, have, w), ls[1..], have, w)
  }

  function Rewrite(ls: seq<string>, w: Want): seq<string> {
    Pass(START, ls, Have(ls), w)
  }

  method RewriteFleetBlock(ls: seq<string>, w: Want) returns (out: seq<string>)
    ensures out == Rewrite(ls, w)
  {
    hide KindOf, ScanKindOf, Emit, Next, AtEnd, SlotLine;
    var scan, have := true, {};
    for i := 0 to |ls|
      invariant Scan(ScanState(scan, have), ls[i..]) == Scan(ScanState(true, {}), ls)
    {
      match ScanKindOf(ls[i]) {
        case Section(f) => scan := f;
        case Active(s) => if scan { have := have + {s}; }
        case _ =>
      }
    }
    out := [];
    var st := START;
    for i := 0 to |ls|
      invariant out + Pass(st, ls[i..], have, w) == Pass(START, ls, have, w)
    {
      ghost var rest := Pass(st, ls[i..], have, w);
      var k := KindOf(ls[i]);
      out := out + Emit(st, ls[i], k, have, w);
      st := Next(st, k, have, w);
    }
    out := out + AtEnd(st, w);
  }

  // ----- the lines the rewriter writes -----

  /** A value of one word: no white space, quote or backslash. */
  predicate PlainWord(s: string) {
    s != "" && forall c :: c in s ==> !IsJsSpace(c) && c != '"' && c != '\\'
  }

  ghost predicate PlainWant(w: Want) {
    PlainWord(w.vps) && PlainWord(w.idx) && (w.port == "" || PlainWord(w.port))
  }

  /** No white space in the line but spaces and tabs. */
  predicate PlainLine(line: string) {
    forall c :: c in line ==> (IsJsSpace(c) ==> IsSpaceOrTab(c))
  }

  ghost predicate Plain(ls: seq<string>) {
    forall i :: 0 <= i < |ls| ==> PlainLine(ls[i])
  }

  /** `key = value` as an active line. */
  lemma SettingReads(key: string, value: string)
    requires key != "" && !IsJsSpace(key[0]) && key[0] != '#' && key[0] != '[' && '=' !in key
    requires !IsJsSpace(key[|key| - 1]) && value != "" && !IsJsSpace(value[|value| - 1])
    ensures var t := key + " = " + value;
            && TrimBlanks(t) == t && ActiveKey(t) == key && TrimLeft(t, IsSpaceOrTab) == t && t[0] != '['
    ensures CommentKey(key + " = " + value) == ""
  {
    var t := key + " = " + value;
    SettingShape(key, value, t);
    hide Trim, TrimLeft, IndexOf;
    assert AllIn("", IsBlank) && AllIn(" ", IsBlank) && Trimmed(t, IsBlank) && Trimmed(key, IsBlank);
    assert "" + t + "" == t && "" + key + " " == key + " ";
    TrimCore("", t, "", IsBlank);
    TrimCore("", key, " ", IsBlank);
    NoLeading(t);
  }

  lemma NoLeading(t: string)
    requires t != "" && !IsSpaceOrTab(t[0])
    ensures TrimLeft(t, IsSpaceOrTab) == t
  {
  }

  lemma SettingShape(key: string, value: string, t: string)
    requires key != "" && '=' !in key && value != "" && t == key + " = " + value
    ensures t[0] == key[0] && t[|t| - 1] == value[|value| - 1]
    ensures IndexOf(t, '=') == |key| + 1 && t[..|key| + 1] == key + " " && t[|key| + 2..] == " " + value
  {
    hide IndexOf;
    assert t == (key + " ") + ['='] + (" " + value);
    IndexOfAt(key + " ", '=', " " + value);
  }

  function SlotKey(s: Slot): string {
    match s case Vps => "vps" case Idx => "box_index" case Port => "port"
  }

  lemma KeyReads(key: string, pad: string, value: string)
    requires key != "" && Trimmed(key, IsBlank) && '=' !in key && AllIn(pad, IsBlank)
    ensures KeyBefore(key + (pad + ("=" + value))) == key
  {
    var t := key + (pad + ("=" + value));
    assert t == (key + pad) + ['='] + value;
    assert forall i :: 0 <= i < |pad| ==> IsBlank(pad[i]);
    IndexOfAt(key + pad, '=', value);
    assert t[..|key + pad|] == key + pad == "" + key + pad && AllIn("", IsBlank);
    TrimCore("", key, pad, IsBlank);
    hide IndexOf, Trim;
  }

  lemma LineCore(lead: string, core: string, tail: string)
    requires AllIn(lead, IsSpaceOrTab) && AllIn(tail, IsBlank) && core != "" && core[0] != '[' && Trimmed(core, IsBlank)
    ensures var line := lead + core + tail;
            TrimBlanks(line) == core && KindOf(line) == ScanKindOf(line) == SlotKind(ActiveKey(line), CommentKey(line))
  {
    var line := lead + core + tail;
    assert AllIn(lead, IsBlank) && line == lead + (core + tail) && (core + tail)[0] == core[0];
    TrimCore(lead, core, tail, IsBlank);
    TrimLeftDrops(lead, core + tail, IsSpaceOrTab);
    hide Trim, TrimLeft, SlotKind, ActiveKey, CommentKey;
  }

  lemma KeyShape(s: Slot)
    ensures var key := SlotKey(s);
            && key != "" && Trimmed(key, IsBlank) && '=' !in key && key[0] != '#' && key[0] != '['
            && !IsSpaceOrTab(key[0]) && SlotKind(key, "") == Active(s) && SlotKind("", key) == Commented(s)
  {
  }

  lemma CoreShape(key: string, pad: string, value: string)
    requires key != "" && (value == "" || !IsBlank(value[|value| - 1]))
    ensures var t := key + (pad + ("=" + value)); t[0] == key[0] && !IsBlank(t[|t| - 1])
  {
  }

  /** However it is indented and spaced, a key with an equals sign is the setting of its slot,
      and behind a number sign it is the commented one. */
  lemma KeysAreSeen(lead: string, gap: string, s: Slot, pad: string, value: string, tail: string)
    requires AllIn(lead, IsSpaceOrTab) && AllIn(gap, IsSpaceOrTab) && AllIn(pad, IsBlank) && AllIn(tail, IsBlank)
    requires value == "" || !IsBlank(value[|value| - 1])
    ensures var t := SlotKey(s) + (pad + ("=" + value));
            var line, comment := lead + t + tail, lead + ("#" + (gap + t)) + tail;
            KindOf(line) == ScanKindOf(line) == Active(s) && KindOf(comment) == ScanKindOf(comment) == Commented(s)
  {
    var t := SlotKey(s) + (pad + ("=" + value));
    var c := "#" + (gap + t);
    KeyShape(s);
    CoreShape(SlotKey(s), pad, value);
    assert c[0] == '#' && c[1..] == gap + t && c[|c| - 1] == t[|t| - 1];
    LineCore(lead, t, tail);
    LineCore(lead, c, tail);
    KeyReads(SlotKey(s), pad, value);
    TrimLeftDrops(gap, t, IsSpaceOrTab);
    hide KindOf, ScanKindOf, SlotKind, KeyBefore, TrimBlanks, TrimLeft, SlotKey;
  }

  function SlotValue(w: Want, s: Slot): string {
    match s case Vps => "\"" + w.vps + "\"" case Idx => w.idx case Port => w.port
  }

  lemma SlotLineParts(w: Want, s: Slot)
    requires PlainWant(w) && s in Wanted(w)
    ensures SlotLine(w, s) == SlotKey(s) + " = " + SlotValue(w, s)
    ensures var key := SlotKey(s);
            key != "" && !IsJsSpace(key[0]) && key[0] != '#' && key[0] != '[' && '=' !in key
                && !IsJsSpace(key[|key| - 1])
    ensures WordEnds(SlotValue(w, s))
  {
    match s
    case Vps => QuotedEnds(w.vps);
    case Idx => WordHasEnds(w.idx);
    case Port => WordHasEnds(w.port);
  }

  ghost predicate WordEnds(v: string) {
    v != "" && !IsJsSpace(v[0]) && !IsJsSpace(v[|v| - 1]) && forall c :: c in v ==> !IsJsSpace(c)
  }

  lemma WordHasEnds(v: string)
    requires PlainWord(v)
    ensures WordEnds(v)
  {
    assert v[0] in v && v[|v| - 1] in v;
  }

  lemma QuotedEnds(v: string)
    requires PlainWord(v)
    ensures WordEnds("\"" + v + "\"")
  {
    assert !IsJsSpace('"');
    var q := "\"" + v + "\"";
    forall c | c in q ensures !IsJsSpace(c) {
      assert c in v || c == '"';
    }
  }

  lemma SlotLineIsPlain(w: Want, s: Slot)
    requires PlainWant(w) && s in Wanted(w)
    ensures PlainLine(SlotLine(w, s))
  {
    SlotLineParts(w, s);
    assert forall c :: c in SlotKey(s) ==> !IsJsSpace(c);
    hide IsJsSpace, SlotLine, SlotKey, SlotValue, PlainWant;
    forall c | c in SlotLine(w, s) ensures IsJsSpace(c) ==> IsSpaceOrTab(c) {
      assert c in SlotKey(s) || c in SlotValue(w, s) || c in " = ";
      assert c in " = " ==> c == ' ' || c == '=';
      EqualsIsNoSpace();
    }
  }

  lemma EqualsIsNoSpace()
    ensures !IsJsSpace('=')
  {
  }

  lemma SlotLineKind(w: Want, s: Slot)
    requires PlainWant(w) && s in Wanted(w)
    ensures KindOf(SlotLine(w, s)) == ScanKindOf(SlotLine(w, s)) == Active(s) && PlainLine(SlotLine(w, s))
  {
    hide ActiveKey, CommentKey, Trim, TrimLeft, SlotLine, SlotValue, PlainLine, PlainWant, Wanted;
    SlotLineParts(w, s);
    SlotLineIsPlain(w, s);
    SettingReads(SlotKey(s), SlotValue(w, s));
  }

  lemma FleetLineKind()
    ensures KindOf(FLEET_LINE) == ScanKindOf(FLEET_LINE) == Section(true) && PlainLine(FLEET_LINE)
  {
    assert AllIn("", IsBlank) && Trimmed(FLEET_LINE, IsBlank) && "" + FLEET_LINE + "" == FLEET_LINE;
    NoLeading(FLEET_LINE);
    hide Trim, TrimLeft;
    TrimCore("", FLEET_LINE, "", IsBlank);
  }

  /** On plain lines both passes read the same. */
  lemma PassesAgree(line: string)
    requires PlainLine(line)
    ensures KindOf(line) == ScanKindOf(line)
  {
    var a, b := TrimSplits(line, IsBlank);
    var t := TrimBlanks(line);
    assert forall i :: 0 <= i < |a| ==> a[i] in line;
    assert forall i :: 0 <= i < |b| ==> b[i] in line;
    assert AllIn(a, IsSpaceOrTab) && AllIn(b, IsSpaceOrTab);
    if t == "" {
      assert line == (a + b) + "";
      TrimLeftDrops(a + b, "", IsSpaceOrTab);
    } else {
      assert line == a + (t + b);
      TrimLeftDrops(a, t + b, IsSpaceOrTab);
    }
  }

  /** Both passes read the line alike, or it is a `[fleet]` header that only the first
      pass sees. */
  predicate Steady(line: string) {
    ScanKindOf(line) == KindOf(line) || (KindOf(line) == Other && ScanKindOf(line) == Section(true))
  }

  ghost predicate AllSteady(ls: seq<string>) {
    forall i :: 0 <= i < |ls| ==> Steady(ls[i])
  }

  /** Everything the induction needs to know about the lines the rewriter adds. */
  ghost predicate Writable(w: Want) {
    && (forall s :: s in Wanted(w) ==>
          KindOf(SlotLine(w, s)) == ScanKindOf(SlotLine(w, s)) == Active(s) && PlainLine(SlotLine(w, s)))
    && KindOf(FLEET_LINE) == ScanKindOf(FLEET_LINE) == Section(true) && PlainLine(FLEET_LINE)
  }

  lemma PlainIsWritable(w: Want)
    requires PlainWant(w)
    ensures Writable(w)
  {
    hide KindOf, ScanKindOf, PlainLine, PlainWant;
    forall s | s in Wanted(w)
      ensures KindOf(SlotLine(w, s)) == ScanKindOf(SlotLine(w, s)) == Active(s) && PlainLine(SlotLine(w, s))
    {
      SlotLineKind(w, s);
    }
    FleetLineKind();
  }

  // ----- a second run changes nothing -----

  /** Where a stretch of lines leaves the second pass. */
  function After(st: State, ls: seq<string>, have: set<Slot>, w: Want): State
    decreases ls
  {
    if ls == [] then st else After(Next(st, KindOf(ls[0]), have, w), ls[1..], have, w)
  }

  /** The rewriter leaves these lines as they are. */
  ghost predicate Stable(st: State, ls: seq<string>, have: set<Slot>, w: Want)
    decreases ls
  {
    ls == [] ||
    (Emit(st, ls[0], KindOf(ls[0]), have, w) == [ls[0]] && Stable(Next(st, KindOf(ls[0]), have, w), ls[1..], have, w))
  }

  lemma {:induction false} PassOverStable(st: State, a: seq<string>, b: seq<string>, have: set<Slot>, w: Want)
    requires Stable(st, a, have, w)
    ensures Pass(st, a + b, have, w) == a + Pass(After(st, a, have, w), b, have, w)
    decreases a
  {
    hide KindOf, Emit, Next, AtEnd;
    if a == [] {
      assert a + b == b;
    } else {
      assert (a + b)[1..] == a[1..] + b;
      PassOverStable(Next(st, KindOf(a[0]), have, w), a[1..], b, have, w);
    }
  }

  lemma {:induction false} StableAppend(st: State, a: seq<string>, b: seq<string>, have: set<Slot>, w: Want)
    requires Stable(st, a, have, w) && Stable(After(st, a, have, w), b, have, w)
    ensures Stable(st, a + b, have, w)
    ensures After(st, a + b, have, w) == After(After(st, a, have, w), b, have, w)
    decreases a
  {
    hide KindOf, Emit, Next;
    if a == [] {
      assert a + b == b;
    } else {
      assert (a + b)[1..] == a[1..] + b;
      StableAppend(Next(st, KindOf(a[0]), have, w), a[1..], b, have, w);
    }
  }

  lemma OneIsStable(st: State, line: string, have: set<Slot>, w: Want)
    requires Emit(st, line, KindOf(line), have, w) == [line]
    ensures Stable(st, [line], have, w) && After(st, [line], have, w) == Next(st, KindOf(line), have, w)
  {
    hide KindOf, Emit, Next;
  }

  /** A written slot line is left alone, and counts as written. */
  lemma MissingIsStable(st: State, s: Slot, have: set<Slot>, w: Want)
    requires st.inFleet && Writable(w)
    ensures var ls := Missing(w, st.wrote, s);
            && Stable(st, ls, have, w)
            && After(st, ls, have, w) == if s in Wanted(w) then st.(wrote := st.wrote + {s}) else st
  {
    hide KindOf, ScanKindOf, SlotLine, PlainLine;
    if s in Wanted(w) && s !in st.wrote {
      OneIsStable(st, SlotLine(w, s), have, w);
    } else if s in Wanted(w) {
      assert st.wrote + {s} == st.wrote;
    }
  }

  lemma FlushIsStable(st: State, have: set<Slot>, w: Want)
    requires st.inFleet && Writable(w)
    ensures Stable(st, Flush(w, st.wrote), have, w)
    ensures After(st, Flush(w, st.wrote), have, w) == st.(wrote := st.wrote + Wanted(w))
  {
    var wrote := st.wrote;
    hide KindOf, Stable, After, Writable, SlotLine;
    MissingIsStable(st, Vps, have, w);
    var st1 := st.(wrote := wrote + {Vps});
    assert Missing(w, st1.wrote, Idx) == Missing(w, wrote, Idx);
    MissingIsStable(st1, Idx, have, w);
    StableAppend(st, Missing(w, wrote, Vps), Missing(w, wrote, Idx), have, w);
    var st2 := st1.(wrote := st1.wrote + {Idx});
    assert Missing(w, st2.wrote, Port) == Missing(w, wrote, Port);
    MissingIsStable(st2, Port, have, w);
    StableAppend(st, Missing(w, wrote, Vps) + Missing(w, wrote, Idx), Missing(w, wrote, Port), have, w);
    assert wrote + Wanted(w) == wrote + {Vps} + {Idx} + (if Port in Wanted(w) then {Port} else {});
  }

  /** What one line becomes is left alone by a second run that finds every wanted
      key active, and leads it to the same state. */
  lemma EmitIsStable(st: State, line: string, have: set<Slot>, again: set<Slot>, w: Want)
    requires Writable(w) && Wanted(w) <= again
    ensures var k := KindOf(line);
            && Stable(st, Emit(st, line, k, have, w), again, w)
            && After(st, Emit(st, line, k, have, w), again, w) == Next(st, k, have, w)
  {
    var k := KindOf(line);
    hide KindOf, ScanKindOf, SlotLine, PlainLine;
    match k
    case Section(f) =>
      var flushed := if st.inFleet then st.(wrote := st.wrote + Wanted(w)) else st;
      if st.inFleet {
        FlushIsStable(st, again, w);
      } else {
        assert Stable(st, [], again, w);
      }
      var mid := State(false, flushed.seen, flushed.wrote);
      SectionIsStable(st, line, again, w);
    case Active(s) =>
      if st.inFleet && s in Wanted(w) {
        OneIsStable(st, SlotLine(w, s), again, w);
      } else if !st.inFleet {
        OneIsStable(st, line, again, w);
      }
    case Commented(s) =>
      OneIsStable(st, line, again, w);
      if Fills(st, s, have, w) {
        OneIsStable(st, SlotLine(w, s), again, w);
        StableAppend(st, [line], [SlotLine(w, s)], again, w);
      }
    case Other =>
      OneIsStable(st, line, again, w);
  }

  lemma NothingMissing(w: Want, wrote: set<Slot>)
    requires Wanted(w) <= wrote
    ensures Flush(w, wrote) == []
  {
  }

  lemma SectionIsStable(st: State, line: string, again: set<Slot>, w: Want)
    requires Writable(w) && Wanted(w) <= again && KindOf(line).Section?
    ensures var out := (if st.inFleet then Flush(w, st.wrote) else []) + [line];
            && Stable(st, out, again, w)
            && After(st, out, again, w) == Next(st, KindOf(line), again, w)
  {
    hide KindOf, Writable, Flush, Wanted;
    if st.inFleet {
      var full := st.(wrote := st.wrote + Wanted(w));
      FlushIsStable(st, again, w);
      NothingMissing(w, full.wrote);
      assert full.wrote + Wanted(w) == full.wrote;
      OneIsStable(full, line, again, w);
      StableAppend(st, Flush(w, st.wrote), [line], again, w);
    } else {
      OneIsStable(st, line, again, w);
      assert [] + [line] == [line];
    }
  }

  /** What holds at every line: nothing is written before the first `[fleet]`, and
      a `[fleet]` section that has ended left nothing out. */
  ghost predicate Reached(st: State, w: Want) {
    && (!st.seen ==> !st.inFleet && st.wrote == {})
    && (st.seen && !st.inFleet ==> Wanted(w) <= st.wrote)
  }

  lemma ReachedNext(st: State, k: Kind, have: set<Slot>, w: Want)
    requires Reached(st, w)
    ensures Reached(Next(st, k, have, w), w)
  {
  }

  lemma EndIsStable(st: State, again: set<Slot>, w: Want)
    requires Writable(w) && Wanted(w) <= again && Reached(st, w)
    ensures Stable(st, AtEnd(st, w), again, w)
    ensures AtEnd(After(st, AtEnd(st, w), again, w), w) == []
  {
    hide KindOf, ScanKindOf, SlotLine, PlainLine;
    if st.inFleet {
      FlushIsStable(st, again, w);
      NothingMissing(w, st.wrote + Wanted(w));
    } else if !st.seen {
      var started := State(true, true, {});
      OneIsStable(st, FLEET_LINE, again, w);
      hide Flush, Stable, After, Writable;
      FlushIsStable(started, again, w);
      NothingMissing(w, started.wrote + Wanted(w));
      StableAppend(st, [FLEET_LINE], Flush(w, {}), again, w);
    } else {
      assert Stable(st, [], again, w);
    }
  }

  lemma {:induction false} PassTwice(st: State, ls: seq<string>, have: set<Slot>, again: set<Slot>, w: Want)
    requires Writable(w) && Wanted(w) <= again && Reached(st, w)
    ensures Pass(st, Pass(st, ls, have, w), again, w) == Pass(st, ls, have, w)
    decreases ls
  {
    hide KindOf, Emit, Next, Writable, Wanted, Reached, Stable, After, AtEnd;
    if ls == [] {
      var out := AtEnd(st, w);
      EndIsStable(st, again, w);
      PassOverStable(st, out, [], again, w);
      assert out + [] == out;
    } else {
      var k := KindOf(ls[0]);
      var st' := Next(st, k, have, w);
      EmitIsStable(st, ls[0], have, again, w);
      ReachedNext(st, k, have, w);
      PassOverStable(st, Emit(st, ls[0], k, have, w), Pass(st', ls[1..], have, w), again, w);
      PassTwice(st', ls[1..], have, again, w);
    }
  }

  // ----- the output has every wanted key active -----

  lemma {:induction false} ScanAppend(c: ScanState, a: seq<string>, b: seq<string>)
    ensures Scan(c, a + b) == Scan(Scan(c, a), b)
    decreases a
  {
    hide ScanKindOf, ScanStep;
    if a == [] {
      assert a + b == b;
    } else {
      assert (a + b)[1..] == a[1..] + b;
      ScanAppend(ScanStep(c, ScanKindOf(a[0])), a[1..], b);
    }
  }

  lemma {:induction false} ScanGrows(c: ScanState, ls: seq<string>)
    ensures c.have <= Scan(c, ls).have
    decreases ls
  {
    hide ScanKindOf;
    if ls != [] {
      ScanGrows(ScanStep(c, ScanKindOf(ls[0])), ls[1..]);
    }
  }

  /** The scan has seen at least what the second pass wrote. */
  ghost predicate Ahead(c: ScanState, st: State) {
    (st.inFleet ==> c.scan) && st.wrote <= c.have
  }

  lemma ScanOne(c: ScanState, line: string)
    ensures Scan(c, [line]) == ScanStep(c, ScanKindOf(line))
  {
    hide ScanKindOf, ScanStep;
  }

  lemma ScanMissing(c: ScanState, wrote: set<Slot>, s: Slot, w: Want)
    requires c.scan && Writable(w) && wrote <= c.have
    ensures var c' := Scan(c, Missing(w, wrote, s));
            c'.scan && c.have <= c'.have && (s in Wanted(w) ==> s in c'.have)
  {
    ScanOne(c, SlotLine(w, s));
    hide KindOf, ScanKindOf, SlotLine, PlainLine;
    assert Scan(c, []) == c;
  }

  lemma ScanFlush(c: ScanState, wrote: set<Slot>, w: Want)
    requires c.scan && Writable(w) && wrote <= c.have
    ensures var c' := Scan(c, Flush(w, wrote)); c'.scan && wrote + Wanted(w) <= c'.have
  {
    hide Writable, SlotLine, Scan, Missing;
    var a, b, d := Missing(w, wrote, Vps), Missing(w, wrote, Idx), Missing(w, wrote, Port);
    ScanMissing(c, wrote, Vps, w);
    ScanMissing(Scan(c, a), wrote, Idx, w);
    ScanMissing(Scan(Scan(c, a), b), wrote, Port, w);
    ScanAppend(c, a, b);
    ScanAppend(c, a + b, d);
  }

  lemma ScanEmit(c: ScanState, st: State, line: string, have: set<Slot>, w: Want)
    requires Writable(w) && Steady(line) && Ahead(c, st)
    ensures var k := KindOf(line); Ahead(Scan(c, Emit(st, line, k, have, w)), Next(st, k, have, w))
  {
    var k := KindOf(line);
    ScanOne(c, line);
    hide KindOf, ScanKindOf, SlotLine, PlainLine, Flush;
    match k
    case Section(f) =>
      if st.inFleet {
        ScanFlush(c, st.wrote, w);
        ScanAppend(c, Flush(w, st.wrote), [line]);
        ScanOne(Scan(c, Flush(w, st.wrote)), line);
      } else {
        assert [] + [line] == [line];
      }
    case Active(s) =>
      if s in Wanted(w) {
        ScanOne(c, SlotLine(w, s));
      }
      assert Scan(c, []) == c;
    case Commented(s) =>
      if Fills(st, s, have, w) {
        ScanAppend(c, [line], [SlotLine(w, s)]);
        ScanOne(c, SlotLine(w, s));
        assert [line] + [SlotLine(w, s)] == [line, SlotLine(w, s)];
      }
    case Other =>
  }

  lemma ScanEnd(c: ScanState, st: State, w: Want)
    requires Writable(w) && Ahead(c, st) && Reached(st, w)
    ensures Wanted(w) <= Scan(c, AtEnd(st, w)).have
  {
    ScanOne(c, FLEET_LINE);
    hide KindOf, ScanKindOf, SlotLine, PlainLine, Flush;
    if st.inFleet {
      ScanFlush(c, st.wrote, w);
    } else if !st.seen {
      ScanFlush(c.(scan := true), {}, w);
      ScanAppend(c, [FLEET_LINE], Flush(w, {}));
    } else {
      assert Scan(c, []) == c;
    }
  }

  lemma {:induction false} ScanPass(c: ScanState, st: State, ls: seq<string>, have: set<Slot>, w: Want)
    requires Writable(w) && AllSteady(ls) && Ahead(c, st) && Reached(st, w)
    ensures Wanted(w) <= Scan(c, Pass(st, ls, have, w)).have
    decreases ls
  {
    hide KindOf, Emit, Next, Writable, Reached, AtEnd, Scan, Steady, Ahead;
    if ls == [] {
      ScanEnd(c, st, w);
    } else {
      var k := KindOf(ls[0]);
      var out := Emit(st, ls[0], k, have, w);
      ScanEmit(c, st, ls[0], have, w);
      ReachedNext(st, k, have, w);
      ScanPass(Scan(c, out), Next(st, k, have, w), ls[1..], have, w);
      ScanAppend(c, out, Pass(Next(st, k, have, w), ls[1..], have, w));
    }
  }

  /** The rewrite is idempotent on every file of steady lines. */
  lemma RewriteIsIdempotent(ls: seq<string>, w: Want)
    requires AllSteady(ls) && PlainWant(w)
    ensures Rewrite(Rewrite(ls, w), w) == Rewrite(ls, w)
  {
    PlainIsWritable(w);
    hide Writable, Pass, Scan, PlainWant, AllSteady;
    ScanPass(ScanState(true, {}), START, ls, Have(ls), w);
    PassTwice(START, ls, Have(ls), Have(Rewrite(ls, w)), w);
  }

  // ----- what the checker sees -----

  /** `replace(/^"(.*)"$/, "$1")` */
  function Unquote(v: string): string {
    if |v| >= 2 && v[0] == '"' && v[|v| - 1] == '"' && NoTerminator(v[1..|v| - 1]) then v[1..|v| - 1] else v
  }

  /** Two quotes come off exactly if no line ends between them, and nothing else comes off. */
  lemma QuotesComeOff(x: string, v: string)
    ensures Unquote("\"" + x + "\"") == x <==> NoTerminator(x)
    ensures v != Unquote(v) ==> v == "\"" + Unquote(v) + "\""
  {
    var q := "\"" + x + "\"";
    hide NoTerminator;
    assert q[0] == '"' && q[|q| - 1] == '"' && q[1..|q| - 1] == x && |q| == |x| + 2;
    if v != Unquote(v) {
      assert v == [v[0]] + v[1..|v| - 1] + [v[|v| - 1]];
    }
  }

  datatype JsLine = JsSection(fleet: bool) | JsSetting(key: string, value: string) | JsSkip

  function JsLineOf(raw: string): JsLine {
    var t := TrimJs(raw);
    if t != "" && t[0] == '[' then JsSection(t == "[fleet]")
    else if t == "" || t[0] == '#' then JsSkip
    else
      var eq := IndexOf(t, '=');
      if eq <= 0 then JsSkip else JsSetting(TrimJs(t[..eq]), Unquote(TrimJs(t[eq + 1..])))
  }

  datatype Check = Check(inFleet: bool, sawVps: bool, sawIdx: bool)

  function CheckStep(c: Check, l: JsLine, vps: string, idx: string): Check {
    match l
    case JsSection(f) => c.(inFleet := f)
    case JsSkip => c
    case JsSetting(k, v) =>
      if !c.inFleet then c
      else if k == "vps" then c.(sawVps := v == vps)
      else if k == "box_index" then c.(sawIdx := v == idx)
      else c
  }

  function CheckLines(c: Check, ls: seq<string>, vps: string, idx: string): Check
    decreases ls
  {
    if ls == [] then c else CheckLines(CheckStep(c, JsLineOf(ls[0]), vps, idx), ls[1..], vps, idx)
  }

  predicate Coherent(ls: seq<string>, vps: string, idx: string) {
    var c := CheckLines(Check(false, false, false), ls, vps, idx);
    c.sawVps && c.sawIdx
  }

  method FleetBlockCoherent(ls: seq<string>, vps: string, idx: string) returns (ok: bool)
    ensures ok == Coherent(ls, vps, idx)
  {
    hide JsLineOf;
    var c := Check(false, false, false);
    for i := 0 to |ls|
      invariant CheckLines(c, ls[i..], vps, idx) == CheckLines(Check(false, false, false), ls, vps, idx)
    {
      match JsLineOf(ls[i]) {
        case JsSection(f) => c := c.(inFleet := f);
        case JsSkip =>
        case JsSetting(k, v) =>
          if c.inFleet {
            if k == "vps" { c := c.(sawVps := v == vps); }
            if k == "box_index" { c := c.(sawIdx := v == idx); }
          }
      }
    }
    ok := c.sawVps && c.sawIdx;
  }

  lemma TrimsAgree(s: string)
    requires PlainLine(s) && '\n' !in s
    ensures TrimJs(s) == TrimBlanks(s)
  {
    forall i | 0 <= i < |s| ensures IsJsSpace(s[i]) == IsBlank(s[i]) {
      assert s[i] in s;
    }
    TrimAgrees(s, IsJsSpace, IsBlank);
  }

  lemma PlainPart(s: string, i: nat, j: nat)
    requires PlainLine(s) && i <= j <= |s|
    ensures PlainLine(s[i..j])
  {
    forall c | c in s[i..j] ensures c in s {}
  }

  lemma PlainTrim(s: string)
    requires PlainLine(s)
    ensures PlainLine(TrimBlanks(s))
  {
    TrimKeepsChars(s, IsBlank);
  }

  /** On a plain line the checker sees what the rewriter sees. */
  ghost predicate SeenAs(l: JsLine, k: Kind) {
    && (l.JsSection? <==> k.Section?) && (l.JsSection? ==> l.fleet == k.fleet)
    && (l.JsSetting? && l.key == "vps" <==> k == Active(Vps))
    && (l.JsSetting? && l.key == "box_index" <==> k == Active(Idx))
  }

  /** The line cannot make the checker reject what the rewriter wrote: both see the same
      section header, or neither sees one and the checker sees no vps or box_index that
      the rewriter does not, unless it has the wanted value. */
  predicate Harmless(line: string, w: Want) {
    var k, l := KindOf(line), JsLineOf(line);
    if k.Section? || l.JsSection? then k.Section? && l == JsSection(k.fleet)
    else
      || k.Active? || l.JsSkip?
      || ((l.key == "vps" ==> l.value == w.vps) && (l.key == "box_index" ==> l.value == w.idx))
  }

  ghost predicate AllHarmless(ls: seq<string>, w: Want) {
    forall i :: 0 <= i < |ls| ==> Harmless(ls[i], w)
  }

  lemma CheckerAgrees(line: string)
    requires PlainLine(line)
    ensures SeenAs(JsLineOf(line), KindOf(line))
  {
    PassesAgree(line);
    TrimsAgree(line);
    PlainTrim(line);
    var t := TrimBlanks(line);
    var eq := IndexOf(t, '=');
    if eq > 0 {
      PlainPart(t, 0, eq);
      TrimsAgree(t[..eq]);
    }
    assert TrimBlanks("") == "";
    assert eq == 0 ==> t[..0] == "";
    hide Trim, KindOf, TrimLeft, IndexOf, PlainLine, IsJsSpace;
    ScanSeenAs(line, t, eq);
  }

  lemma ScanSeenAs(line: string, t: string, eq: int)
    requires t == TrimBlanks(line) == TrimJs(line) && eq == IndexOf(t, '=')
    requires eq > 0 ==> TrimJs(t[..eq]) == TrimBlanks(t[..eq])
    requires eq == 0 ==> TrimBlanks(t[..eq]) == ""
    ensures SeenAs(JsLineOf(line), ScanKindOf(line))
  {
    hide Trim;
    var ck := CommentKey(line);
    assert t != "" && t[0] != '#' ==> ck == "";
    hide CommentKey;
    assert ActiveKey(line) == if t == "" || t[0] == '#' || eq <= 0 then "" else TrimBlanks(t[..eq]);
    hide ActiveKey;
  }

  // ----- the rewriter satisfies the checker -----

  /** How the checker reads the lines the rewriter adds. */
  ghost predicate Readable(w: Want) {
    && (forall s :: s in Wanted(w) ==> JsLineOf(SlotLine(w, s)) == JsSetting(SlotKey(s), JsValue(w, s)))
    && JsLineOf(FLEET_LINE) == JsSection(true)
  }

  function JsValue(w: Want, s: Slot): string {
    match s case Vps => w.vps case Idx => w.idx case Port => w.port
  }

  lemma SettingIsSeen(key: string, value: string)
    requires key != "" && !IsJsSpace(key[0]) && key[0] != '#' && key[0] != '[' && '=' !in key
    requires !IsJsSpace(key[|key| - 1]) && WordEnds(value)
    ensures JsLineOf(key + " = " + value) == JsSetting(key, Unquote(value))
  {
    var t := key + " = " + value;
    SettingShape(key, value, t);
    SettingTrims(key, value);
    hide TrimJs, IndexOf, IsJsSpace, Unquote, WordEnds;
  }

  lemma SettingTrims(key: string, value: string)
    requires key != "" && !IsJsSpace(key[0]) && !IsJsSpace(key[|key| - 1]) && WordEnds(value)
    ensures TrimJs(key + " = " + value) == key + " = " + value
    ensures TrimJs(key + " ") == key && TrimJs(" " + value) == value
  {
    var t := key + " = " + value;
    assert AllIn("", IsJsSpace) && AllIn(" ", IsJsSpace);
    assert Trimmed(t, IsJsSpace) && Trimmed(key, IsJsSpace) && Trimmed(value, IsJsSpace);
    assert "" + t + "" == t && "" + key + " " == key + " " && " " + value + "" == " " + value;
    hide Trim, IsJsSpace, AllIn, Trimmed;
    TrimCore("", t, "", IsJsSpace);
    TrimCore("", key, " ", IsJsSpace);
    TrimCore(" ", value, "", IsJsSpace);
  }

  lemma SlotLineIsSeen(w: Want, s: Slot)
    requires PlainWant(w) && s in Wanted(w)
    ensures JsLineOf(SlotLine(w, s)) == JsSetting(SlotKey(s), JsValue(w, s))
  {
    SlotLineParts(w, s);
    UnquotedValue(w, s);
    hide SlotLine, JsLineOf, Unquote, SlotValue;
    SettingIsSeen(SlotKey(s), SlotValue(w, s));
  }

  lemma UnquotedValue(w: Want, s: Slot)
    requires PlainWant(w) && s in Wanted(w)
    ensures Unquote(SlotValue(w, s)) == JsValue(w, s)
  {
    assert forall c :: IsTerminator(c) ==> IsJsSpace(c);
    hide IsJsSpace, IsTerminator;
    match s
    case Vps => assert ("\"" + w.vps + "\"")[1..|w.vps| + 1] == w.vps;
    case Idx => assert w.idx[0] in w.idx;
    case Port => assert w.port[0] in w.port;
  }

  lemma PlainIsReadable(w: Want)
    requires PlainWant(w)
    ensures Readable(w)
  {
    hide JsLineOf, PlainWant, SlotLine, JsValue;
    forall s | s in Wanted(w) ensures JsLineOf(SlotLine(w, s)) == JsSetting(SlotKey(s), JsValue(w, s)) {
      SlotLineIsSeen(w, s);
    }
    FleetLineIsSeen();
  }

  lemma FleetLineIsSeen()
    ensures JsLineOf(FLEET_LINE) == JsSection(true)
  {
    assert AllIn("", IsJsSpace) && Trimmed(FLEET_LINE, IsJsSpace) && "" + FLEET_LINE + "" == FLEET_LINE;
    hide Trim, IsJsSpace;
    TrimCore("", FLEET_LINE, "", IsJsSpace);
  }

  lemma {:induction false} CheckAppend(c: Check, a: seq<string>, b: seq<string>, w: Want)
    ensures CheckLines(c, a + b, w.vps, w.idx) == CheckLines(CheckLines(c, a, w.vps, w.idx), b, w.vps, w.idx)
    decreases a
  {
    hide JsLineOf, CheckStep;
    if a == [] {
      assert a + b == b;
    } else {
      assert (a + b)[1..] == a[1..] + b;
      CheckAppend(CheckStep(c, JsLineOf(a[0]), w.vps, w.idx), a[1..], b, w);
    }
  }

  lemma CheckOne(c: Check, line: string, w: Want)
    ensures CheckLines(c, [line], w.vps, w.idx) == CheckStep(c, JsLineOf(line), w.vps, w.idx)
  {
    hide JsLineOf, CheckStep;
  }

  /** The checker is in the rewriter's section and has seen what it wrote. */
  ghost predicate Sees(c: Check, st: State) {
    && c.inFleet == st.inFleet
    && (Vps in st.wrote ==> c.sawVps) && (Idx in st.wrote ==> c.sawIdx)
  }

  lemma SlotLineChecks(c: Check, st: State, s: Slot, w: Want)
    requires Readable(w) && s in Wanted(w) && st.inFleet && Sees(c, st)
    ensures Sees(CheckLines(c, [SlotLine(w, s)], w.vps, w.idx), st.(wrote := st.wrote + {s}))
  {
    CheckOne(c, SlotLine(w, s), w);
    hide JsLineOf, SlotLine, CheckLines;
  }

  lemma MissingChecks(c: Check, st: State, wrote: set<Slot>, s: Slot, w: Want)
    requires Readable(w) && st.inFleet && Sees(c, st) && wrote <= st.wrote
    ensures Sees(CheckLines(c, Missing(w, wrote, s), w.vps, w.idx),
                 st.(wrote := st.wrote + (if s in Wanted(w) then {s} else {})))
  {
    assert CheckLines(c, [], w.vps, w.idx) == c;
    hide CheckLines, Readable;
    if s in Wanted(w) && s !in wrote {
      SlotLineChecks(c, st, s, w);
    }
  }

  lemma FlushChecks(c: Check, st: State, w: Want)
    requires Readable(w) && st.inFleet && Sees(c, st)
    ensures Sees(CheckLines(c, Flush(w, st.wrote), w.vps, w.idx), st.(wrote := st.wrote + Wanted(w)))
  {
    hide Readable, SlotLine, CheckLines, Missing;
    var wrote := st.wrote;
    var a, b, d := Missing(w, wrote, Vps), Missing(w, wrote, Idx), Missing(w, wrote, Port);
    var st1 := st.(wrote := wrote + {Vps});
    var st2 := st1.(wrote := st1.wrote + {Idx});
    MissingChecks(c, st, wrote, Vps, w);
    MissingChecks(CheckLines(c, a, w.vps, w.idx), st1, wrote, Idx, w);
    MissingChecks(CheckLines(CheckLines(c, a, w.vps, w.idx), b, w.vps, w.idx), st2, wrote, Port, w);
    CheckAppend(c, a, b, w);
    CheckAppend(c, a + b, d, w);
  }

  /** A harmless line that is left as it is tells the checker nothing new. */
  lemma LeftAloneChecks(c: Check, st: State, line: string, w: Want)
    requires Harmless(line, w) && Sees(c, st) && !KindOf(line).Section? && (KindOf(line).Active? ==> !st.inFleet)
    ensures Sees(CheckLines(c, [line], w.vps, w.idx), st)
  {
    CheckOne(c, line, w);
    hide KindOf, JsLineOf, CheckLines;
  }

  lemma HeaderChecks(c: Check, line: string, w: Want)
    requires Harmless(line, w) && KindOf(line).Section?
    ensures CheckLines(c, [line], w.vps, w.idx) == c.(inFleet := KindOf(line).fleet)
  {
    CheckOne(c, line, w);
    hide KindOf, JsLineOf, CheckLines;
  }

  lemma EmitChecks(c: Check, st: State, line: string, have: set<Slot>, w: Want)
    requires Readable(w) && Harmless(line, w) && Sees(c, st)
    ensures var k := KindOf(line);
            Sees(CheckLines(c, Emit(st, line, k, have, w), w.vps, w.idx), Next(st, k, have, w))
  {
    var k := KindOf(line);
    assert CheckLines(c, [], w.vps, w.idx) == c;
    hide KindOf, JsLineOf, SlotLine, Harmless, Flush, CheckLines;
    match k
    case Section(f) =>
      if st.inFleet {
        FlushChecks(c, st, w);
        CheckAppend(c, Flush(w, st.wrote), [line], w);
        HeaderChecks(CheckLines(c, Flush(w, st.wrote), w.vps, w.idx), line, w);
      } else {
        assert [] + [line] == [line];
        HeaderChecks(c, line, w);
      }
    case Active(s) =>
      if !st.inFleet {
        LeftAloneChecks(c, st, line, w);
      } else if s in Wanted(w) {
        SlotLineChecks(c, st, s, w);
      }
    case Commented(s) =>
      LeftAloneChecks(c, st, line, w);
      if Fills(st, s, have, w) {
        CheckAppend(c, [line], [SlotLine(w, s)], w);
        assert [line] + [SlotLine(w, s)] == [line, SlotLine(w, s)];
        SlotLineChecks(CheckLines(c, [line], w.vps, w.idx), st, s, w);
      }
    case Other =>
      LeftAloneChecks(c, st, line, w);
  }

  lemma EndChecks(c: Check, st: State, w: Want)
    requires Readable(w) && Sees(c, st) && Reached(st, w)
    ensures var c' := CheckLines(c, AtEnd(st, w), w.vps, w.idx); c'.sawVps && c'.sawIdx
  {
    CheckOne(c, FLEET_LINE, w);
    assert CheckLines(c, [], w.vps, w.idx) == c;
    hide JsLineOf, SlotLine, Flush, CheckLines;
    if st.inFleet {
      FlushChecks(c, st, w);
    } else if !st.seen {
      FlushChecks(c.(inFleet := true), State(true, true, {}), w);
      CheckAppend(c, [FLEET_LINE], Flush(w, {}), w);
    }
  }

  lemma {:induction false} PassChecks(c: Check, st: State, ls: seq<string>, have: set<Slot>, w: Want)
    requires Readable(w) && AllHarmless(ls, w) && Sees(c, st) && Reached(st, w)
    ensures var c' := CheckLines(c, Pass(st, ls, have, w), w.vps, w.idx); c'.sawVps && c'.sawIdx
    decreases ls
  {
    hide KindOf, Emit, Next, Readable, Reached, AtEnd, CheckLines, Harmless, Sees;
    if ls == [] {
      EndChecks(c, st, w);
    } else {
      var k := KindOf(ls[0]);
      var out := Emit(st, ls[0], k, have, w);
      EmitChecks(c, st, ls[0], have, w);
      ReachedNext(st, k, have, w);
      PassChecks(CheckLines(c, out, w.vps, w.idx), Next(st, k, have, w), ls[1..], have, w);
      CheckAppend(c, out, Pass(Next(st, k, have, w), ls[1..], have, w), w);
    }
  }

  /** Whatever file of harmless lines: the rewritten block names the wanted vps and index. */
  lemma RewriteIsCoherent(ls: seq<string>, w: Want)
    requires AllHarmless(ls, w) && PlainWant(w)
    ensures Coherent(Rewrite(ls, w), w.vps, w.idx)
  {
    PlainIsReadable(w);
    hide Readable, Pass, CheckLines, PlainWant, AllHarmless;
    PassChecks(Check(false, false, false), START, ls, Have(ls), w);
  }

  // ----- what survives, and what the block then says -----

  /** A file as the rewriter's owner reads it: the active settings of its
      `[fleet]` sections, and every other line in order. */
  datatype View = View(inFleet: bool, seen: bool, settings: set<(Slot, string)>, others: seq<string>)

  const NOTHING := View(false, false, {}, [])

  function ViewStep(v: View, line: string, k: Kind): View {
    match k
    case Section(f) => v.(inFleet := f, seen := v.seen || f, others := v.others + [line])
    case Active(s) =>
      if v.inFleet then v.(settings := v.settings + {(s, line)}) else v.(others := v.others + [line])
    case _ => v.(others := v.others + [line])
  }

  function ViewOf(v: View, ls: seq<string>): View
    decreases ls
  {
    if ls == [] then v else ViewOf(ViewStep(v, ls[0], KindOf(ls[0])), ls[1..])
  }

  function Settings(w: Want, ss: set<Slot>): set<(Slot, string)> {
    set s | s in ss :: (s, SlotLine(w, s))
  }

  lemma {:induction false} ViewAppend(v: View, a: seq<string>, b: seq<string>)
    ensures ViewOf(v, a + b) == ViewOf(ViewOf(v, a), b)
    decreases a
  {
    hide KindOf, ViewStep;
    if a == [] {
      assert a + b == b;
    } else {
      assert (a + b)[1..] == a[1..] + b;
      ViewAppend(ViewStep(v, a[0], KindOf(a[0])), a[1..], b);
    }
  }

  lemma ViewOne(v: View, line: string)
    ensures ViewOf(v, [line]) == ViewStep(v, line, KindOf(line))
  {
    hide KindOf, ViewStep;
  }

  /** The view `o` of what was written, beside the view `i` of what was read. */
  ghost predicate Keeps(o: View, i: View, st: State, w: Want) {
    && o.inFleet == i.inFleet == st.inFleet && i.seen == st.seen
    && o.others == i.others
    && o.settings == Settings(w, st.wrote) && st.wrote <= Wanted(w)
  }

  lemma SettingsGrow(w: Want, ss: set<Slot>, s: Slot)
    ensures Settings(w, ss + {s}) == Settings(w, ss) + {(s, SlotLine(w, s))}
    ensures s in ss ==> Settings(w, ss) == Settings(w, ss) + {(s, SlotLine(w, s))}
  {
    hide SlotLine;
  }

  lemma SlotLineViews(o: View, wrote: set<Slot>, s: Slot, w: Want)
    requires Writable(w) && s in Wanted(w) && o.inFleet && o.settings == Settings(w, wrote)
    ensures ViewOf(o, [SlotLine(w, s)]) == o.(settings := Settings(w, wrote + {s}))
  {
    ViewOne(o, SlotLine(w, s));
    SettingsGrow(w, wrote, s);
    hide KindOf, ScanKindOf, SlotLine, PlainLine, ViewOf;
  }

  lemma MissingViews(o: View, wrote: set<Slot>, done: set<Slot>, s: Slot, w: Want)
    requires Writable(w) && o.inFleet && o.settings == Settings(w, done) && wrote <= done
    ensures ViewOf(o, Missing(w, wrote, s))
            == o.(settings := Settings(w, done + (if s in Wanted(w) then {s} else {})))
  {
    assert ViewOf(o, []) == o;
    assert done + {} == done;
    assert s in done ==> done + {s} == done;
    hide ViewOf, Writable, Settings;
    if s in Wanted(w) && s !in wrote {
      SlotLineViews(o, done, s, w);
    }
  }

  lemma FlushViews(o: View, wrote: set<Slot>, w: Want)
    requires Writable(w) && o.inFleet && o.settings == Settings(w, wrote) && wrote <= Wanted(w)
    ensures ViewOf(o, Flush(w, wrote)) == o.(settings := Settings(w, Wanted(w)))
  {
    hide Writable, SlotLine, ViewOf, Missing, Settings;
    var a, b, d := Missing(w, wrote, Vps), Missing(w, wrote, Idx), Missing(w, wrote, Port);
    var s1 := wrote + {Vps};
    var s2 := s1 + {Idx};
    MissingViews(o, wrote, wrote, Vps, w);
    MissingViews(ViewOf(o, a), wrote, s1, Idx, w);
    MissingViews(ViewOf(ViewOf(o, a), b), wrote, s2, Port, w);
    assert s2 + (if Port in Wanted(w) then {Port} else {}) == Wanted(w);
    ViewAppend(o, a, b);
    ViewAppend(o, a + b, d);
  }

  lemma EmitViews(o: View, i: View, st: State, line: string, have: set<Slot>, w: Want)
    requires Writable(w) && Keeps(o, i, st, w)
    ensures var k := KindOf(line);
            Keeps(ViewOf(o, Emit(st, line, k, have, w)), ViewStep(i, line, k), Next(st, k, have, w), w)
  {
    var k := KindOf(line);
    ViewOne(o, line);
    assert ViewOf(o, []) == o;
    hide KindOf, ScanKindOf, SlotLine, PlainLine, Flush, ViewOf, Settings;
    match k
    case Section(f) =>
      if st.inFleet {
        FlushViews(o, st.wrote, w);
        ViewAppend(o, Flush(w, st.wrote), [line]);
        ViewOne(ViewOf(o, Flush(w, st.wrote)), line);
        assert st.wrote + Wanted(w) == Wanted(w);
      } else {
        assert [] + [line] == [line];
      }
    case Active(s) =>
      if st.inFleet && s in Wanted(w) {
        SlotLineViews(o, st.wrote, s, w);
      }
    case Commented(s) =>
      if Fills(st, s, have, w) {
        ViewAppend(o, [line], [SlotLine(w, s)]);
        assert [line] + [SlotLine(w, s)] == [line, SlotLine(w, s)];
        SlotLineViews(ViewOf(o, [line]), st.wrote, s, w);
      }
    case Other =>
  }

  lemma EndViews(o: View, i: View, st: State, w: Want)
    requires Writable(w) && Keeps(o, i, st, w) && Reached(st, w)
    ensures var o' := ViewOf(o, AtEnd(st, w));
            && o'.others == i.others + (if i.seen then [] else [FLEET_LINE])
            && o'.settings == Settings(w, Wanted(w))
  {
    ViewOne(o, FLEET_LINE);
    assert ViewOf(o, []) == o;
    hide KindOf, ScanKindOf, SlotLine, PlainLine, Flush, ViewOf, Settings;
    if st.inFleet {
      FlushViews(o, st.wrote, w);
    } else if !st.seen {
      ViewAppend(o, [FLEET_LINE], Flush(w, {}));
      FlushViews(ViewOf(o, [FLEET_LINE]), {}, w);
    } else {
      assert st.wrote == Wanted(w);
    }
  }

  lemma {:induction false} PassViews(o: View, i: View, st: State, ls: seq<string>, have: set<Slot>, w: Want)
    requires Writable(w) && Keeps(o, i, st, w) && Reached(st, w)
    ensures var o', i' := ViewOf(o, Pass(st, ls, have, w)), ViewOf(i, ls);
            && o'.others == i'.others + (if i'.seen then [] else [FLEET_LINE])
            && o'.settings == Settings(w, Wanted(w))
    decreases ls
  {
    hide KindOf, Emit, Next, Writable, Reached, AtEnd, Keeps, ViewStep, Settings;
    if ls == [] {
      EndViews(o, i, st, w);
    } else {
      var k := KindOf(ls[0]);
      var out := Emit(st, ls[0], k, have, w);
      EmitViews(o, i, st, ls[0], have, w);
      ReachedNext(st, k, have, w);
      PassViews(ViewOf(o, out), ViewStep(i, ls[0], k), Next(st, k, have, w), ls[1..], have, w);
      ViewAppend(o, out, Pass(Next(st, k, have, w), ls[1..], have, w));
    }
  }

  /** Every line but an active setting of `[fleet]` survives in order, and the
      settings are then exactly the wanted ones; a file without `[fleet]` gets
      the block at its end. */
  lemma RewriteKeepsTheRest(ls: seq<string>, w: Want)
    requires PlainWant(w)
    ensures var before, after := ViewOf(NOTHING, ls), ViewOf(NOTHING, Rewrite(ls, w));
            && after.others == before.others + (if before.seen then [] else [FLEET_LINE])
            && after.settings == Settings(w, Wanted(w))
  {
    PlainIsWritable(w);
    assert Settings(w, {}) == {};
    hide Writable, Pass, ViewOf, PlainWant;
    PassViews(NOTHING, NOTHING, START, ls, Have(ls), w);
  }

  // ----- how often a setting stands in the block, and where -----

  predicate InFleetAfter(inFleet: bool, ls: seq<string>)
    decreases ls
  {
    if ls == [] then inFleet
    else InFleetAfter(if KindOf(ls[0]).Section? then KindOf(ls[0]).fleet else inFleet, ls[1..])
  }

  /** The active lines of a key inside `[fleet]` sections. */
  function ActiveCount(inFleet: bool, ls: seq<string>, s: Slot): nat
    decreases ls
  {
    if ls == [] then 0
    else
      var k := KindOf(ls[0]);
      (if inFleet && k == Active(s) then 1 else 0)
      + ActiveCount(if k.Section? then k.fleet else inFleet, ls[1..], s)
  }

  lemma {:induction false} CountAppend(inFleet: bool, a: seq<string>, b: seq<string>, s: Slot)
    ensures ActiveCount(inFleet, a + b, s) == ActiveCount(inFleet, a, s) + ActiveCount(InFleetAfter(inFleet, a), b, s)
    ensures InFleetAfter(inFleet, a + b) == InFleetAfter(InFleetAfter(inFleet, a), b)
    decreases a
  {
    hide KindOf;
    if a == [] {
      assert a + b == b;
    } else {
      assert (a + b)[1..] == a[1..] + b;
      CountAppend(if KindOf(a[0]).Section? then KindOf(a[0]).fleet else inFleet, a[1..], b, s);
    }
  }

  lemma CountOne(inFleet: bool, line: string, s: Slot)
    ensures ActiveCount(inFleet, [line], s) == if inFleet && KindOf(line) == Active(s) then 1 else 0
    ensures InFleetAfter(inFleet, [line]) == if KindOf(line).Section? then KindOf(line).fleet else inFleet
    ensures ActiveCount(inFleet, [], s) == 0 && InFleetAfter(inFleet, []) == inFleet
  {
    hide KindOf;
  }

  lemma CountMissing(wrote: set<Slot>, q: Slot, s: Slot, w: Want)
    requires Writable(w)
    ensures ActiveCount(true, Missing(w, wrote, q), s) == (if s == q && s in Wanted(w) && s !in wrote then 1 else 0)
    ensures InFleetAfter(true, Missing(w, wrote, q))
  {
    CountOne(true, SlotLine(w, q), s);
    hide KindOf, ScanKindOf, SlotLine, PlainLine;
  }

  lemma CountFlush(wrote: set<Slot>, s: Slot, w: Want)
    requires Writable(w)
    ensures ActiveCount(true, Flush(w, wrote), s) == (if s in Wanted(w) && s !in wrote then 1 else 0)
    ensures InFleetAfter(true, Flush(w, wrote))
  {
    hide Writable, Missing, ActiveCount, InFleetAfter;
    var a, b, d := Missing(w, wrote, Vps), Missing(w, wrote, Idx), Missing(w, wrote, Port);
    CountMissing(wrote, Vps, s, w);
    CountMissing(wrote, Idx, s, w);
    CountMissing(wrote, Port, s, w);
    CountAppend(true, a, b, s);
    CountAppend(true, a + b, d, s);
  }

  /** How many active lines of the key the rewrite makes of this line. */
  function Made(st: State, k: Kind, have: set<Slot>, w: Want, s: Slot): nat {
    if s !in Wanted(w) then 0
    else if k.Section? && st.inFleet && s !in st.wrote then 1
    else if k == Active(s) && st.inFleet then 1
    else if k == Commented(s) && st.inFleet && s !in have && s !in st.wrote then 1
    else 0
  }

  lemma CountEmit(st: State, line: string, have: set<Slot>, w: Want, s: Slot)
    requires Writable(w)
    ensures var k, out := KindOf(line), Emit(st, line, KindOf(line), have, w);
            && ActiveCount(st.inFleet, out, s) == Made(st, k, have, w, s)
            && InFleetAfter(st.inFleet, out) == Next(st, k, have, w).inFleet
  {
    var k := KindOf(line);
    CountOne(st.inFleet, line, s);
    hide KindOf, ScanKindOf, SlotLine, PlainLine, Flush, ActiveCount, InFleetAfter;
    match k
    case Section(f) =>
      if st.inFleet {
        CountFlush(st.wrote, s, w);
        CountAppend(true, Flush(w, st.wrote), [line], s);
        CountOne(true, line, s);
      } else {
        assert [] + [line] == [line];
      }
    case Active(q) =>
      if st.inFleet && q in Wanted(w) {
        CountOne(true, SlotLine(w, q), s);
      }
    case Commented(q) =>
      if Fills(st, q, have, w) {
        CountAppend(true, [line], [SlotLine(w, q)], s);
        CountOne(true, SlotLine(w, q), s);
        assert [line] + [SlotLine(w, q)] == [line, SlotLine(w, q)];
      }
    case Other =>
  }

  lemma CountEnd(st: State, w: Want, s: Slot)
    requires Writable(w) && Reached(st, w)
    ensures ActiveCount(st.inFleet, AtEnd(st, w), s) == if s in Wanted(w) && s !in st.wrote then 1 else 0
  {
    CountOne(st.inFleet, FLEET_LINE, s);
    hide KindOf, ScanKindOf, SlotLine, PlainLine, Flush, ActiveCount, InFleetAfter;
    if st.inFleet {
      CountFlush(st.wrote, s, w);
    } else if !st.seen {
      CountFlush({}, s, w);
      CountAppend(false, [FLEET_LINE], Flush(w, {}), s);
    }
  }

  /** What the rewrite makes of a key's active lines: each is kept once, and one is added
      if it was not written yet and its time comes before the first of them. */
  lemma {:induction false} CountPass(st: State, ls: seq<string>, have: set<Slot>, w: Want, s: Slot)
    requires Writable(w) && Reached(st, w)
    ensures var before, after := ActiveCount(st.inFleet, ls, s), ActiveCount(st.inFleet, Pass(st, ls, have, w), s);
            && (s !in Wanted(w) ==> after == 0)
            && (s in Wanted(w) && s in st.wrote ==> after == before)
            && (s in Wanted(w) && s !in st.wrote ==> before <= after <= before + 1 && after >= 1)
    decreases ls
  {
    hide KindOf, Emit, Writable, Reached, AtEnd, SlotLine;
    if ls == [] {
      CountEnd(st, w, s);
    } else {
      var k := KindOf(ls[0]);
      var next := Next(st, k, have, w);
      CountEmit(st, ls[0], have, w, s);
      ReachedNext(st, k, have, w);
      CountPass(next, ls[1..], have, w, s);
      CountAppend(st.inFleet, Emit(st, ls[0], k, have, w), Pass(next, ls[1..], have, w), s);
    }
  }

  /** A wanted key that has no active line inside `[fleet]` has exactly one after the
      rewrite; one that has some keeps as many, or gets one more; and an unwanted one has
      none. */
  lemma EachSettingOnce(ls: seq<string>, w: Want, s: Slot)
    requires PlainWant(w)
    ensures var before, after := ActiveCount(false, ls, s), ActiveCount(false, Rewrite(ls, w), s);
            && (s in Wanted(w) && before == 0 ==> after == 1)
            && (s in Wanted(w) ==> before <= after <= before + 1)
            && (s !in Wanted(w) ==> after == 0)
  {
    PlainIsWritable(w);
    hide Writable, Pass, Have, PlainWant, ActiveCount;
    CountPass(START, ls, Have(ls), w, s);
  }

  /** What the second pass writes for a stretch of lines. */
  function EmitAll(st: State, ls: seq<string>, have: set<Slot>, w: Want): seq<string>
    decreases ls
  {
    if ls == [] then []
    else Emit(st, ls[0], KindOf(ls[0]), have, w) + EmitAll(Next(st, KindOf(ls[0]), have, w), ls[1..], have, w)
  }

  lemma {:induction false} PassInTwo(st: State, a: seq<string>, b: seq<string>, have: set<Slot>, w: Want)
    ensures Pass(st, a + b, have, w) == EmitAll(st, a, have, w) + Pass(After(st, a, have, w), b, have, w)
    decreases a
  {
    hide KindOf, Emit, Next;
    if a == [] {
      assert a + b == b;
    } else {
      assert (a + b)[1..] == a[1..] + b;
      PassInTwo(Next(st, KindOf(a[0]), have, w), a[1..], b, have, w);
    }
  }

  lemma {:induction false} EmitInTwo(st: State, a: seq<string>, b: seq<string>, have: set<Slot>, w: Want)
    ensures EmitAll(st, a + b, have, w) == EmitAll(st, a, have, w) + EmitAll(After(st, a, have, w), b, have, w)
    ensures After(st, a + b, have, w) == After(After(st, a, have, w), b, have, w)
    decreases a
  {
    hide KindOf, Emit, Next;
    if a == [] {
      assert a + b == b;
    } else {
      assert (a + b)[1..] == a[1..] + b;
      EmitInTwo(Next(st, KindOf(a[0]), have, w), a[1..], b, have, w);
    }
  }

  /** Lines ahead of the first `[fleet]` are left as they are. */
  lemma {:induction false} AheadIsKept(st: State, ls: seq<string>, have: set<Slot>, w: Want)
    requires !st.inFleet && forall i :: 0 <= i < |ls| ==> KindOf(ls[i]) != Section(true)
    ensures EmitAll(st, ls, have, w) == ls && After(st, ls, have, w) == st
    decreases ls
  {
    hide KindOf, Flush;
    if ls != [] {
      AheadIsKept(st, ls[1..], have, w);
    }
  }

  ghost predicate NoHeader(ls: seq<string>) {
    forall i :: 0 <= i < |ls| ==> !KindOf(ls[i]).Section?
  }

  ghost predicate Holds(ls: seq<string>, k: Kind) {
    exists i :: 0 <= i < |ls| && KindOf(ls[i]) == k
  }

  /** What a section has written at its end. */
  lemma {:induction false} SectionWrites(st: State, body: seq<string>, have: set<Slot>, w: Want, s: Slot)
    requires st.inFleet && NoHeader(body)
    ensures var end := After(st, body, have, w);
            && end.inFleet
            && (s in end.wrote <==>
                  s in st.wrote
                  || (s in Wanted(w) && (Holds(body, Active(s)) || (s !in have && Holds(body, Commented(s))))))
    decreases body
  {
    hide KindOf;
    if body != [] {
      var k := KindOf(body[0]);
      var next := Next(st, k, have, w);
      SectionWrites(next, body[1..], have, w, s);
      HoldsRest(body, Active(s));
      HoldsRest(body, Commented(s));
    }
  }

  lemma HoldsRest(body: seq<string>, k: Kind)
    requires body != []
    ensures Holds(body, k) <==> KindOf(body[0]) == k || Holds(body[1..], k)
  {
    hide KindOf;
    if Holds(body[1..], k) {
      var i :| 0 <= i < |body[1..]| && KindOf(body[1..][i]) == k;
      assert KindOf(body[i + 1]) == k;
    }
    if Holds(body, k) && KindOf(body[0]) != k {
      var i :| 0 <= i < |body| && KindOf(body[i]) == k;
      assert KindOf(body[1..][i - 1]) == k;
    }
  }

  lemma FlushHolds(wrote: set<Slot>, s: Slot, w: Want)
    ensures s in Wanted(w) && s !in wrote ==> SlotLine(w, s) in Flush(w, wrote)
  {
    hide SlotLine;
  }

  const INSIDE := State(true, true, {})

  /** A file is rewritten as: what is ahead of the first `[fleet]`, the header, its
      section, the keys that the section has not written, and the rest. */
  lemma FirstSection(ahead: seq<string>, header: string, body: seq<string>, tail: seq<string>, w: Want)
    requires KindOf(header) == Section(true) && forall i :: 0 <= i < |ahead| ==> KindOf(ahead[i]) != Section(true)
    requires NoHeader(body) && (tail == [] || KindOf(tail[0]).Section?)
    ensures var have := Have(ahead + ([header] + (body + tail)));
            var wrote := After(INSIDE, body, have, w).wrote;
            Rewrite(ahead + ([header] + (body + tail)), w)
            == ahead + ([header] + (EmitAll(INSIDE, body, have, w) + (Flush(w, wrote) + RestOf(tail, wrote, have, w))))
  {
    var have := Have(ahead + ([header] + (body + tail)));
    var end := After(INSIDE, body, have, w);
    hide KindOf, Flush, Have, EmitAll, RestOf, After, Pass, NoHeader;
    AheadIsKept(START, ahead, have, w);
    PassInTwo(START, ahead, [header] + (body + tail), have, w);
    PassOn(START, header, body + tail, have, w);
    PassInTwo(INSIDE, body, tail, have, w);
    SectionIsOpen(INSIDE, body, have, w);
    SectionEnds(end, tail, have, w);
  }

  lemma SectionEnds(end: State, tail: seq<string>, have: set<Slot>, w: Want)
    requires end.inFleet && end.seen && (tail == [] || KindOf(tail[0]).Section?)
    ensures Pass(end, tail, have, w) == Flush(w, end.wrote) + RestOf(tail, end.wrote, have, w)
  {
    hide KindOf, Flush;
    if tail == [] {
      PassAtEnd(end, have, w);
      assert Flush(w, end.wrote) + [] == Flush(w, end.wrote);
    } else {
      assert [tail[0]] + tail[1..] == tail;
      PassOn(end, tail[0], tail[1..], have, w);
      assert Flush(w, end.wrote) + [tail[0]] + Pass(Next(end, KindOf(tail[0]), have, w), tail[1..], have, w)
             == Flush(w, end.wrote) + ([tail[0]] + Pass(Next(end, KindOf(tail[0]), have, w), tail[1..], have, w));
    }
  }

  /** The next header and what follows it, after a section that has written these keys. */
  function RestOf(tail: seq<string>, wrote: set<Slot>, have: set<Slot>, w: Want): seq<string> {
    if tail == [] then []
    else [tail[0]] + Pass(Next(State(true, true, wrote), KindOf(tail[0]), have, w), tail[1..], have, w)
  }

  lemma {:induction false} SectionIsOpen(st: State, body: seq<string>, have: set<Slot>, w: Want)
    requires st.inFleet && st.seen && NoHeader(body)
    ensures After(st, body, have, w) == State(true, true, After(st, body, have, w).wrote)
    decreases body
  {
    hide KindOf;
    if body != [] {
      SectionIsOpen(Next(st, KindOf(body[0]), have, w), body[1..], have, w);
    }
  }

  /** Where a wanted key goes that is not active in the first `[fleet]` section: if the file
      gives it nowhere else and the section has it commented, directly below the first such
      line; otherwise to the end of the section. `a` is the section ahead of that line, or
      all of it. */
  lemma WhereASettingGoes(a: seq<string>, b: seq<string>, have: set<Slot>, w: Want, s: Slot)
    requires NoHeader(a) && NoHeader(b) && s in Wanted(w)
    requires !Holds(a + b, Active(s)) && !Holds(a, Commented(s)) && (b == [] || KindOf(b[0]) == Commented(s))
    ensures var end := After(INSIDE, a + b, have, w);
            if b != [] && s !in have then
              && s in end.wrote
              && EmitAll(INSIDE, a + b, have, w)
                 == EmitAll(INSIDE, a, have, w)
                     + ([b[0], SlotLine(w, s)] + EmitAll(FilledAt(a, have, w, s), b[1..], have, w))
            else SlotLine(w, s) in Flush(w, end.wrote)
  {
    HoldsInTwo(a, b, Active(s));
    HoldsInTwo(a, b, Commented(s));
    HeaderInNeither(a, b);
    hide KindOf, Flush, Wanted, EmitAll, Holds, NoHeader, SlotLine;
    SectionWrites(INSIDE, a, have, w, s);
    SectionWrites(INSIDE, a + b, have, w, s);
    FlushHolds(After(INSIDE, a + b, have, w).wrote, s, w);
    EmitInTwo(INSIDE, a, b, have, w);
    if b != [] {
      HoldsFirst(b, s);
      if s !in have {
        EmitFill(After(INSIDE, a, have, w), b, have, w, s);
      }
    }
  }

  /** The pass behind the line that filled the key in. */
  function FilledAt(a: seq<string>, have: set<Slot>, w: Want, s: Slot): State {
    var st := After(INSIDE, a, have, w);
    st.(wrote := st.wrote + {s})
  }

  lemma EmitFill(st: State, b: seq<string>, have: set<Slot>, w: Want, s: Slot)
    requires b != [] && KindOf(b[0]) == Commented(s) && Fills(st, s, have, w)
    ensures EmitAll(st, b, have, w)
            == [b[0], SlotLine(w, s)] + EmitAll(st.(wrote := st.wrote + {s}), b[1..], have, w)
  {
    hide KindOf, SlotLine;
  }

  lemma HoldsFirst(b: seq<string>, s: Slot)
    requires b != [] && KindOf(b[0]) == Commented(s)
    ensures Holds(b, Commented(s))
  {
    hide KindOf;
  }

  lemma HoldsInTwo(a: seq<string>, b: seq<string>, k: Kind)
    ensures Holds(a + b, k) <==> Holds(a, k) || Holds(b, k)
  {
    hide KindOf;
    if Holds(a, k) {
      var i :| 0 <= i < |a| && KindOf(a[i]) == k;
      assert (a + b)[i] == a[i];
    }
    if Holds(b, k) {
      var i :| 0 <= i < |b| && KindOf(b[i]) == k;
      assert (a + b)[|a| + i] == b[i];
    }
  }

  lemma HeaderInNeither(a: seq<string>, b: seq<string>)
    requires NoHeader(a) && NoHeader(b)
    ensures NoHeader(a + b)
  {
    hide KindOf;
  }

  /** A file without `[fleet]` gets the block at its end: vps, box_index and, if it is
      wanted, port. */
  lemma WithoutABlock(ls: seq<string>, w: Want)
    requires forall i :: 0 <= i < |ls| ==> KindOf(ls[i]) != Section(true)
    ensures Rewrite(ls, w)
           == ls + [FLEET_LINE, SlotLine(w, Vps), SlotLine(w, Idx)] + (if w.port == "" then [] else [SlotLine(w, Port)])
  {
    hide KindOf, SlotLine, Have;
    AheadIsKept(START, ls, Have(ls), w);
    PassInTwo(START, ls, [], Have(ls), w);
    assert ls + [] == ls;
    PassAtEnd(START, Have(ls), w);
    assert Flush(w, {}) == [SlotLine(w, Vps)] + [SlotLine(w, Idx)] + (if w.port == "" then [] else [SlotLine(w, Port)]);
    assert [FLEET_LINE] + Flush(w, {})
           == [FLEET_LINE, SlotLine(w, Vps), SlotLine(w, Idx)] + (if w.port == "" then [] else [SlotLine(w, Port)]);
  }

  // ----- the file -----

  /** awk's records: the lines of the text, without an empty one after a final newline. */
  function Records(text: string): seq<string> {
    var ls := Lines(text);
    if ls[|ls| - 1] == "" then ls[..|ls| - 1] else ls
  }

  function RewriteText(text: string, w: Want): string {
    Unlines(Rewrite(Records(text), w))
  }

  lemma RecordsOfUnlines(ls: seq<string>)
    requires NoNewlines(ls)
    ensures Records(Unlines(ls)) == ls
  {
    LinesOfUnlines(ls);
    hide Lines;
    assert (ls + [""])[..|ls|] == ls;
  }

  lemma FlushHasNoNewlines(w: Want, wrote: set<Slot>)
    requires PlainWant(w)
    ensures NoNewlines(Flush(w, wrote))
    ensures forall s :: s in Wanted(w) ==> '\n' !in SlotLine(w, s)
  {
    forall s | s in Wanted(w) ensures '\n' !in SlotLine(w, s) {
      SlotLineIsPlain(w, s);
      assert IsJsSpace('\n') && !IsSpaceOrTab('\n');
    }
    hide SlotLine, Wanted;
  }

  lemma {:induction false} PassHasNoNewlines(st: State, ls: seq<string>, have: set<Slot>, w: Want)
    requires PlainWant(w) && NoNewlines(ls)
    ensures NoNewlines(Pass(st, ls, have, w))
    decreases ls
  {
    FlushHasNoNewlines(w, st.wrote);
    FlushHasNoNewlines(w, {});
    hide KindOf, SlotLine, PlainWant, Flush, Wanted, Next;
    if ls != [] {
      var k := KindOf(ls[0]);
      PassHasNoNewlines(Next(st, k, have, w), ls[1..], have, w);
    }
  }

  lemma RecordsHaveNoNewlines(text: string)
    ensures NoNewlines(Records(text))
  {
    LinesHaveNoNewlines(text);
    hide Lines;
  }

  lemma {:induction false} BlankLineChecks(c: Check, w: Want)
    ensures CheckLines(c, [""], w.vps, w.idx) == c
  {
    CheckOne(c, "", w);
    assert JsLineOf("") == JsSkip;
    hide CheckLines, JsLineOf;
  }

  /** For every file: if its lines are harmless the rewritten file passes the check for
      the wanted vps and index, and if they are steady rewriting it again changes no
      byte. */
  lemma WriterEstablishesChecker(text: string, w: Want)
    requires PlainWant(w)
    ensures AllHarmless(Records(text), w) ==> Coherent(Lines(RewriteText(text, w)), w.vps, w.idx)
    ensures AllSteady(Records(text)) ==> RewriteText(RewriteText(text, w), w) == RewriteText(text, w)
  {
    var ls := Records(text);
    var out := Rewrite(ls, w);
    RecordsHaveNoNewlines(text);
    PassHasNoNewlines(START, ls, Have(ls), w);
    hide Records, AllHarmless, AllSteady, PlainWant, Pass, Have, Lines, CheckLines, Unlines;
    LinesOfUnlines(out);
    RecordsOfUnlines(out);
    if AllHarmless(ls, w) {
      RewriteIsCoherent(ls, w);
      CheckAppend(Check(false, false, false), out, [""], w);
      BlankLineChecks(CheckLines(Check(false, false, false), out, w.vps, w.idx), w);
    }
    if AllSteady(ls) {
      RewriteIsIdempotent(ls, w);
    }
  }

  // ----- lines that are harmless and steady -----

  lemma PlainLineIsFine(line: string, w: Want)
    requires PlainLine(line)
    ensures Harmless(line, w) && Steady(line)
  {
    PassesAgree(line);
    CheckerAgrees(line);
    hide KindOf, ScanKindOf, JsLineOf, PlainLine;
  }

  /** A file of plain lines is both, so all of the above holds of it. */
  lemma PlainFilesAreFine(ls: seq<string>, w: Want)
    requires Plain(ls)
    ensures AllHarmless(ls, w) && AllSteady(ls)
  {
    hide Harmless, Steady, PlainLine;
    forall i | 0 <= i < |ls| ensures Harmless(ls[i], w) && Steady(ls[i]) {
      PlainLineIsFine(ls[i], w);
    }
  }

  // ----- how the two readings can differ -----

  lemma CoreLeads(u: string, core: string, tail: string, ws: char -> bool)
    requires u == core + tail && AllIn(tail, ws) && u != "" && !ws(u[0])
    ensures core != "" && core[0] == u[0]
  {
    assert "" + tail == tail;
  }

  /** What a trimmed line begins with, the checker sees too. */
  lemma FirstCharStays(line: string)
    requires TrimBlanks(line) != "" && !IsJsSpace(TrimBlanks(line)[0])
    ensures TrimJs(line) != "" && TrimJs(line)[0] == TrimBlanks(line)[0]
  {
    var t := TrimBlanks(line);
    var a, b := TrimSplits(line, IsBlank);
    assert line == a + (t + b);
    TrimLeftDrops(a, t + b, IsJsSpace);
    var c := TrimRightSplits(t + b, IsJsSpace);
    CoreLeads(t + b, TrimRight(t + b, IsJsSpace), c, IsJsSpace);
  }

  lemma BracketIsFirst(line: string)
    requires KindOf(line).Section?
    ensures TrimBlanks(line) != "" && TrimBlanks(line)[0] == '['
  {
    var s := TrimLeft(line, IsSpaceOrTab);
    var a := TrimLeftSplits(line, IsSpaceOrTab);
    TrimLeftDrops(a, s, IsBlank);
    var b := TrimRightSplits(s, IsBlank);
    CoreLeads(s, TrimRight(s, IsBlank), b, IsBlank);
  }

  lemma KeyStartsLine(t: string)
    requires t != "" && !IsBlank(t[0]) && KeyBefore(t) != ""
    ensures KeyBefore(t)[0] == t[0]
  {
    var eq := IndexOf(t, '=');
    var a, b := TrimSplits(t[..eq], IsBlank);
    assert t[..eq] == a + TrimBlanks(t[..eq]) + b;
    if a != "" {
      assert t[0] == (a + TrimBlanks(t[..eq]) + b)[0];
    }
  }

  lemma SlotStartsLine(line: string)
    ensures KindOf(line).Active? ==> TrimBlanks(line) != "" && TrimBlanks(line)[0] == SlotKey(KindOf(line).slot)[0]
    ensures KindOf(line).Commented? ==> TrimBlanks(line) != "" && TrimBlanks(line)[0] == '#'
  {
    var _, _ := TrimSplits(line, IsBlank);
    hide Trim, TrimLeft;
    if KindOf(line).Active? {
      KeyStartsLine(TrimBlanks(line));
    }
  }

  lemma HeaderIsSeen(line: string)
    requires KindOf(line).Section?
    ensures JsLineOf(line).JsSection? && (KindOf(line).fleet ==> JsLineOf(line).fleet)
  {
    BracketIsFirst(line);
    FirstCharStays(line);
    if KindOf(line).fleet {
      var a, b := TrimSplits(line, IsBlank);
      TrimCore(a, "[fleet]", b, IsJsSpace);
    }
    hide Trim, TrimLeft;
  }

  /** A header that the rewriter sees the checker sees, and a `[fleet]` header as one; a
      header that only the checker sees is nothing to the rewriter; a commented key is
      nothing to the checker. */
  lemma CheckerMayDiffer(line: string)
    ensures var k, l := KindOf(line), JsLineOf(line);
            && (k.Section? ==> l.JsSection? && (k.fleet ==> l.fleet))
            && (l.JsSection? && !k.Section? ==> k == Other)
            && (k.Commented? ==> l.JsSkip?)
  {
    var k := KindOf(line);
    SlotStartsLine(line);
    assert forall s: Slot :: !IsJsSpace(SlotKey(s)[0]) && SlotKey(s)[0] != '[';
    hide KindOf, TrimBlanks, TrimJs, SlotKey;
    if k.Section? {
      HeaderIsSeen(line);
    } else if k != Other {
      FirstCharStays(line);
    }
  }

  /** The two passes differ on a header alone that only the first of them sees. */
  lemma PassesMayDiffer(line: string)
    requires ScanKindOf(line) != KindOf(line)
    ensures ScanKindOf(line).Section? && KindOf(line) == Other
  {
    var t := TrimBlanks(line);
    if KindOf(line).Section? {
      BracketIsFirst(line);
    } else {
      SlotStartsLine(line);
      hide Trim, TrimLeft, ActiveKey, CommentKey;
    }
  }

  // ----- the lines that break the promise -----

  /** A file of plain lines and this one, as often as you like. */
  ghost predicate MadeOf(ls: seq<string>, line: string) {
    forall i :: 0 <= i < |ls| ==> ls[i] == line || PlainLine(ls[i])
  }

  ghost predicate AlwaysCoherent(line: string, w: Want) {
    forall ls: seq<string> :: MadeOf(ls, line) ==> Coherent(Rewrite(ls, w), w.vps, w.idx)
  }

  ghost predicate AlwaysIdempotent(line: string, w: Want) {
    forall ls: seq<string> :: MadeOf(ls, line) ==> Rewrite(Rewrite(ls, w), w) == Rewrite(ls, w)
  }

  lemma PassOn(st: State, line: string, rest: seq<string>, have: set<Slot>, w: Want)
    ensures Pass(st, [line] + rest, have, w)
            == Emit(st, line, KindOf(line), have, w) + Pass(Next(st, KindOf(line), have, w), rest, have, w)
  {
    assert ([line] + rest)[1..] == rest;
    hide KindOf, Emit, Next;
  }

  lemma CheckOn(c: Check, line: string, rest: seq<string>, w: Want)
    ensures CheckLines(c, [line] + rest, w.vps, w.idx)
            == CheckLines(CheckStep(c, JsLineOf(line), w.vps, w.idx), rest, w.vps, w.idx)
  {
    assert ([line] + rest)[1..] == rest;
    hide JsLineOf, CheckStep;
  }

  const OTHER_TABLE := "[x]"

  lemma OtherTableKind()
    ensures KindOf(OTHER_TABLE) == ScanKindOf(OTHER_TABLE) == Section(false) && PlainLine(OTHER_TABLE)
  {
    assert "" + OTHER_TABLE + "" == OTHER_TABLE && Trimmed(OTHER_TABLE, IsBlank);
    NoLeading(OTHER_TABLE);
    hide Trim, TrimLeft;
    TrimCore("", OTHER_TABLE, "", IsBlank);
  }

  lemma HiddenTableRewrites(line: string, w: Want)
    requires KindOf(FLEET_LINE) == Section(true) && KindOf(line) == Other
    ensures Rewrite([FLEET_LINE, line], w) == [FLEET_LINE] + ([line] + Flush(w, {}))
  {
    hide KindOf, Flush, Have, Pass;
    var ls := [FLEET_LINE, line];
    assert ls == [FLEET_LINE] + ([line] + []);
    var have, inside := Have(ls), State(true, true, {});
    PassOn(START, FLEET_LINE, [line] + [], have, w);
    PassOn(inside, line, [], have, w);
    PassAtEnd(inside, have, w);
  }

  lemma OutOfTheBlock(line: string, rest: seq<string>, w: Want)
    requires JsLineOf(FLEET_LINE) == JsSection(true) && JsLineOf(line) == JsSection(false)
    requires forall i :: 0 <= i < |rest| ==> !JsLineOf(rest[i]).JsSection?
    ensures !Coherent([FLEET_LINE] + ([line] + rest), w.vps, w.idx)
  {
    hide JsLineOf, CheckLines;
    var c := Check(false, false, false);
    CheckOn(c, FLEET_LINE, [line] + rest, w);
    CheckOn(c.(inFleet := true), line, rest, w);
    OutsideFleet(c, rest, w);
  }

  /** A header of another table that only the checker sees: it takes the block for that
      table's. */
  lemma HiddenTable(line: string, w: Want) returns (ls: seq<string>)
    requires PlainWant(w) && KindOf(line) == Other && JsLineOf(line) == JsSection(false)
    ensures MadeOf(ls, line) && !Coherent(Rewrite(ls, w), w.vps, w.idx)
  {
    hide PlainWant, KindOf, ScanKindOf, JsLineOf, Flush, Rewrite, Coherent, Readable, PlainLine;
    FleetLineKind();
    PlainIsReadable(w);
    FlushHasNoSections(w);
    FleetLineIsSeen();
    ls := [FLEET_LINE, line];
    HiddenTableRewrites(line, w);
    OutOfTheBlock(line, Flush(w, {}), w);
  }

  lemma PassAtEnd(st: State, have: set<Slot>, w: Want)
    ensures Pass(st, [], have, w) == AtEnd(st, w)
  {
  }

  lemma CheckNothing(c: Check, w: Want)
    ensures CheckLines(c, [], w.vps, w.idx) == c
  {
  }

  lemma HiddenFleetRewrites(line: string, bad: string, w: Want)
    requires KindOf(FLEET_LINE) == Section(true) && KindOf(OTHER_TABLE) == Section(false)
    requires (KindOf(line) == Other || KindOf(line) == Section(false)) && KindOf(bad) == Active(Vps)
    ensures Rewrite([FLEET_LINE, OTHER_TABLE, line, bad], w)
            == [FLEET_LINE] + (Flush(w, {}) + [OTHER_TABLE]) + ([line] + ([bad] + []))
  {
    hide KindOf, Flush, Have, Pass, Wanted;
    var ls := [FLEET_LINE, OTHER_TABLE, line, bad];
    assert ls == [FLEET_LINE] + ([OTHER_TABLE] + ([line] + ([bad] + [])));
    var have, outside := Have(ls), State(false, true, {} + Wanted(w));
    PassOn(START, FLEET_LINE, [OTHER_TABLE] + ([line] + ([bad] + [])), have, w);
    PassOn(State(true, true, {}), OTHER_TABLE, [line] + ([bad] + []), have, w);
    PassOn(outside, line, [bad] + [], have, w);
    PassOn(outside, bad, [], have, w);
    PassAtEnd(outside, have, w);
  }

  lemma BadTail(ahead: seq<string>, line: string, bad: string, w: Want)
    requires JsLineOf(line) == JsSection(true)
    requires JsLineOf(bad).JsSetting? && JsLineOf(bad).key == "vps" && JsLineOf(bad).value != w.vps
    ensures !Coherent(ahead + ([line] + ([bad] + [])), w.vps, w.idx)
  {
    hide JsLineOf, CheckLines;
    var c := CheckLines(Check(false, false, false), ahead, w.vps, w.idx);
    CheckAppend(Check(false, false, false), ahead, [line] + ([bad] + []), w);
    CheckOn(c, line, [bad] + [], w);
    CheckOn(c.(inFleet := true), bad, [], w);
    CheckNothing(c.(inFleet := true, sawVps := false), w);
  }

  lemma OtherWant(w: Want)
    requires PlainWant(w)
    ensures PlainWant(w.(vps := w.vps + "x")) && w.vps + "x" != w.vps
  {
    assert |w.vps + "x"| == |w.vps| + 1;
  }

  /** A `[fleet]` header that only the checker sees: it believes the setting below it. */
  lemma HiddenFleet(line: string, w: Want) returns (ls: seq<string>)
    requires PlainWant(w) && (KindOf(line) == Other || KindOf(line) == Section(false))
    requires JsLineOf(line) == JsSection(true)
    ensures MadeOf(ls, line) && !Coherent(Rewrite(ls, w), w.vps, w.idx)
  {
    hide PlainWant, KindOf, ScanKindOf, JsLineOf, Flush, Rewrite, Coherent, SlotLine, PlainLine;
    var other := w.(vps := w.vps + "x");
    var bad := SlotLine(other, Vps);
    OtherWant(w);
    SlotLineKind(other, Vps);
    SlotLineIsSeen(other, Vps);
    FleetLineKind();
    OtherTableKind();
    ls := [FLEET_LINE, OTHER_TABLE, line, bad];
    HiddenFleetRewrites(line, bad, w);
    BadTail([FLEET_LINE] + (Flush(w, {}) + [OTHER_TABLE]), line, bad, w);
  }

  predicate Saw(c: Check, s: Slot) {
    match s case Vps => c.sawVps case Idx => c.sawIdx case Port => true
  }

  function WantedValue(w: Want, s: Slot): string {
    match s case Vps => w.vps case Idx => w.idx case Port => w.port
  }

  lemma {:induction false} UnseenStays(c: Check, ls: seq<string>, s: Slot, w: Want)
    requires s != Port && !Saw(c, s)
    requires forall i :: 0 <= i < |ls| ==> JsLineOf(ls[i]).JsSetting? && JsLineOf(ls[i]).key != SlotKey(s)
    ensures !Saw(CheckLines(c, ls, w.vps, w.idx), s)
    decreases ls
  {
    hide JsLineOf;
    if ls != [] {
      UnseenStays(CheckStep(c, JsLineOf(ls[0]), w.vps, w.idx), ls[1..], s, w);
    }
  }

  lemma FlushHasOtherKeys(w: Want, s: Slot)
    requires Readable(w)
    ensures forall i :: 0 <= i < |Flush(w, {s})| ==>
              JsLineOf(Flush(w, {s})[i]).JsSetting? && JsLineOf(Flush(w, {s})[i]).key != SlotKey(s)
  {
    hide JsLineOf, SlotLine;
  }

  lemma HiddenSettingRewrites(line: string, s: Slot, w: Want)
    requires KindOf(FLEET_LINE) == Section(true) && KindOf(SlotLine(w, s)) == Active(s) && KindOf(line) == Other
    requires s in Wanted(w)
    ensures Rewrite([FLEET_LINE, SlotLine(w, s), line], w)
            == [FLEET_LINE] + ([SlotLine(w, s)] + ([line] + Flush(w, {s})))
  {
    hide KindOf, Flush, Have, Pass, SlotLine, Wanted;
    var good := SlotLine(w, s);
    var ls := [FLEET_LINE, good, line];
    assert ls == [FLEET_LINE] + ([good] + ([line] + []));
    var have, done := Have(ls), State(true, true, {} + {s});
    PassOn(START, FLEET_LINE, [good] + ([line] + []), have, w);
    PassOn(State(true, true, {}), good, [line] + [], have, w);
    PassOn(done, line, [], have, w);
    PassAtEnd(done, have, w);
    assert {} + {s} == {s};
  }

  lemma WrongSettingChecks(good: string, line: string, s: Slot, rest: seq<string>, w: Want)
    requires JsLineOf(FLEET_LINE) == JsSection(true) && JsLineOf(good).JsSetting? && s != Port
    requires JsLineOf(line).JsSetting? && JsLineOf(line).key == SlotKey(s) && JsLineOf(line).value != WantedValue(w, s)
    requires forall i :: 0 <= i < |rest| ==> JsLineOf(rest[i]).JsSetting? && JsLineOf(rest[i]).key != SlotKey(s)
    ensures !Coherent([FLEET_LINE] + ([good] + ([line] + rest)), w.vps, w.idx)
  {
    hide JsLineOf, CheckLines;
    var c := Check(false, false, false);
    var c1 := c.(inFleet := true);
    var c2 := CheckStep(c1, JsLineOf(good), w.vps, w.idx);
    CheckOn(c, FLEET_LINE, [good] + ([line] + rest), w);
    CheckOn(c1, good, [line] + rest, w);
    CheckOn(c2, line, rest, w);
    UnseenStays(CheckStep(c2, JsLineOf(line), w.vps, w.idx), rest, s, w);
  }

  /** A vps or box_index of another value that only the checker sees: it believes that. */
  lemma HiddenSetting(line: string, s: Slot, w: Want) returns (ls: seq<string>)
    requires PlainWant(w) && KindOf(line) == Other && s != Port
    requires JsLineOf(line).JsSetting? && JsLineOf(line).key == SlotKey(s) && JsLineOf(line).value != WantedValue(w, s)
    ensures MadeOf(ls, line) && !Coherent(Rewrite(ls, w), w.vps, w.idx)
  {
    hide PlainWant, KindOf, ScanKindOf, JsLineOf, Flush, Rewrite, Coherent, Readable, SlotLine, PlainLine, SlotKey,
        WantedValue;
    SlotLineKind(w, s);
    PlainIsReadable(w);
    FleetLineKind();
    SlotLineIsSeen(w, s);
    FleetLineIsSeen();
    FlushHasOtherKeys(w, s);
    ls := [FLEET_LINE, SlotLine(w, s), line];
    HiddenSettingRewrites(line, s, w);
    WrongSettingChecks(SlotLine(w, s), line, s, Flush(w, {s}), w);
  }

  /** Exactly the harmless lines can stand in a file anywhere, with any plain lines,
      without making the checker reject the rewritten file. */
  lemma HarmlessIsExact(line: string, w: Want)
    requires PlainWant(w)
    ensures AlwaysCoherent(line, w) <==> Harmless(line, w)
  {
    if Harmless(line, w) {
      hide Harmless, Coherent, PlainWant, Rewrite, PlainLine;
      forall ls: seq<string> | MadeOf(ls, line) ensures Coherent(Rewrite(ls, w), w.vps, w.idx) {
        forall i | 0 <= i < |ls| ensures Harmless(ls[i], w) {
          if ls[i] != line {
            PlainLineIsFine(ls[i], w);
          }
        }
        RewriteIsCoherent(ls, w);
      }
    } else {
      var k, l := KindOf(line), JsLineOf(line);
      CheckerMayDiffer(line);
      hide KindOf, JsLineOf, Coherent, PlainWant, Rewrite, MadeOf;
      var ls: seq<string>;
      if l == JsSection(true) {
        ls := HiddenFleet(line, w);
      } else if l == JsSection(false) {
        ls := HiddenTable(line, w);
      } else {
        ls := HiddenSetting(line, if l.key == "vps" && l.value != w.vps then Vps else Idx, w);
      }
    }
  }

  const COMMENT := "# " + ("vps" + " = " + "x")

  lemma CommentReads(rest: string)
    requires rest != "" && !IsSpaceOrTab(rest[0]) && !IsBlank(rest[|rest| - 1])
    ensures var line := "# " + rest;
            && TrimBlanks(line) == TrimLeft(line, IsSpaceOrTab) == line && line[0] == '#'
            && TrimLeft(line[1..], IsSpaceOrTab) == rest
  {
    var line := "# " + rest;
    assert "" + line + "" == line && Trimmed(line, IsBlank) && AllIn(" ", IsSpaceOrTab) && line[1..] == " " + rest;
    NoLeading(line);
    TrimLeftDrops(" ", rest, IsSpaceOrTab);
    TrimCore("", line, "", IsBlank);
  }

  lemma CommentKind()
    ensures KindOf(COMMENT) == ScanKindOf(COMMENT) == Commented(Vps) && PlainLine(COMMENT)
  {
    var rest := "vps" + " = " + "x";
    assert rest[|rest| - 1] == 'x' && rest[0] == 'v';
    assert PlainLine(COMMENT) by {
      assert COMMENT == ['#', ' ', 'v', 'p', 's', ' ', '=', ' ', 'x'];
    }
    hide Trim, TrimLeft, IndexOf, PlainLine;
    SettingReads("vps", "x");
    CommentReads(rest);
  }

  lemma {:induction false} ScanIsOff(c: ScanState, ls: seq<string>)
    requires !c.scan && forall i :: 0 <= i < |ls| ==> !ScanKindOf(ls[i]).Section?
    ensures Scan(c, ls) == c
    decreases ls
  {
    hide ScanKindOf;
    if ls != [] {
      ScanIsOff(ScanStep(c, ScanKindOf(ls[0])), ls[1..]);
    }
  }

  lemma FlushAfterVps(w: Want)
    requires Writable(w)
    ensures var ls := Flush(w, {Vps});
            && ls != [] && ls[0] == SlotLine(w, Idx) && forall i :: 0 <= i < |ls| ==> !ScanKindOf(ls[i]).Section?
  {
    hide ScanKindOf, KindOf, SlotLine, PlainLine;
  }

  lemma ScanOn(c: ScanState, line: string, rest: seq<string>)
    ensures Scan(c, [line] + rest) == Scan(ScanStep(c, ScanKindOf(line)), rest)
  {
    assert ([line] + rest)[1..] == rest;
    hide ScanKindOf, ScanStep;
  }

  /** The first pass of a file that begins with `[fleet]` and such a header finds nothing
      below it. */
  lemma NothingFound(line: string, rest: seq<string>)
    requires ScanKindOf(line) == Section(false) && forall i :: 0 <= i < |rest| ==> !ScanKindOf(rest[i]).Section?
    ensures Have([FLEET_LINE] + ([line] + rest)) == {}
  {
    FleetLineKind();
    hide ScanKindOf, KindOf, PlainLine, Scan;
    ScanOn(ScanState(true, {}), FLEET_LINE, [line] + rest);
    ScanOn(ScanState(true, {}), line, rest);
    ScanIsOff(ScanState(false, {}), rest);
  }

  lemma FilledOnce(line: string, w: Want, rest: seq<string>)
    requires KindOf(FLEET_LINE) == Section(true) && KindOf(line) == Other && KindOf(COMMENT) == Commented(Vps)
    requires var ls := [FLEET_LINE] + ([line] + ([COMMENT] + rest)); Have(ls) == {}
    ensures Rewrite([FLEET_LINE] + ([line] + ([COMMENT] + rest)), w)
            == [FLEET_LINE] + ([line] + ([COMMENT, SlotLine(w, Vps)] + Pass(State(true, true, {Vps}), rest, {}, w)))
  {
    hide KindOf, Flush, Have, Pass, SlotLine;
    var inside := State(true, true, {});
    PassOn(START, FLEET_LINE, [line] + ([COMMENT] + rest), {}, w);
    PassOn(inside, line, [COMMENT] + rest, {}, w);
    PassOn(inside, COMMENT, rest, {}, w);
    assert {} + {Vps} == {Vps};
  }

  lemma FilledTwice(line: string, vps: string, rest: seq<string>, w: Want)
    requires KindOf(FLEET_LINE) == Section(true) && KindOf(line) == Other && KindOf(COMMENT) == Commented(Vps)
    requires vps == SlotLine(w, Vps) && KindOf(vps) == Active(Vps) && rest != [] && rest[0] != vps
    requires Have([FLEET_LINE] + ([line] + ([COMMENT] + ([vps] + rest)))) == {}
    ensures var once := [FLEET_LINE] + ([line] + ([COMMENT] + ([vps] + rest)));
            Rewrite(once, w) != once
  {
    hide KindOf, Flush, Have, Pass, SlotLine, Rewrite;
    var once := [FLEET_LINE] + ([line] + ([COMMENT] + ([vps] + rest)));
    FilledOnce(line, w, [vps] + rest);
    PassOn(State(true, true, {Vps}), vps, rest, {}, w);
    assert Rewrite(once, w)[4] == vps && once[4] == rest[0];
  }

  lemma VpsIsNotIdx(w: Want)
    ensures SlotLine(w, Vps) != SlotLine(w, Idx)
  {
    assert SlotLine(w, Vps)[0] != SlotLine(w, Idx)[0];
  }

  /** A header that only the first pass sees hides the settings below it, so a commented
      key is filled in by every run anew. */
  lemma HiddenFromSecondPass(line: string, w: Want) returns (ls: seq<string>)
    requires PlainWant(w) && KindOf(line) == Other && ScanKindOf(line) == Section(false)
    ensures MadeOf(ls, line) && Rewrite(Rewrite(ls, w), w) != Rewrite(ls, w)
  {
    hide PlainWant, KindOf, ScanKindOf, Flush, Have, Pass, Writable, SlotLine, PlainLine, Rewrite, Wanted;
    var vps, rest := SlotLine(w, Vps), Flush(w, {Vps});
    VpsIsNotIdx(w);
    PlainIsWritable(w);
    assert Vps in Wanted(w) by { VpsIsWanted(w); }
    SlotLineKind(w, Vps);
    FleetLineKind();
    CommentKind();
    FlushAfterVps(w);
    ls := [FLEET_LINE] + ([line] + ([COMMENT] + []));
    NothingFound(line, [COMMENT] + []);
    FilledOnce(line, w, []);
    PassAtEnd(State(true, true, {Vps}), {}, w);
    assert [COMMENT, vps] + rest == [COMMENT] + ([vps] + rest);
    NothingFound(line, [COMMENT] + ([vps] + rest));
    FilledTwice(line, vps, rest, w);
    MadeOfThree(FLEET_LINE, line, COMMENT);
  }

  lemma VpsIsWanted(w: Want)
    ensures Vps in Wanted(w)
  {
  }

  lemma MadeOfThree(a: string, line: string, b: string)
    requires PlainLine(a) && PlainLine(b)
    ensures MadeOf([a] + ([line] + ([b] + [])), line)
  {
    hide PlainLine;
  }

  /** Exactly the steady lines can stand in a file anywhere, with any plain lines, without
      making a second rewrite change it. */
  lemma SteadyIsExact(line: string, w: Want)
    requires PlainWant(w)
    ensures AlwaysIdempotent(line, w) <==> Steady(line)
  {
    if Steady(line) {
      hide Steady, PlainWant, Rewrite, PlainLine;
      forall ls: seq<string> | MadeOf(ls, line) ensures Rewrite(Rewrite(ls, w), w) == Rewrite(ls, w) {
        forall i | 0 <= i < |ls| ensures Steady(ls[i]) {
          if ls[i] != line {
            PlainLineIsFine(ls[i], w);
          }
        }
        RewriteIsIdempotent(ls, w);
      }
    } else {
      PassesMayDiffer(line);
      hide KindOf, ScanKindOf, PlainWant, Rewrite, MadeOf;
      var ls := HiddenFromSecondPass(line, w);
    }
  }

  /** A carriage return at the end of a plain line changes nothing. */
  lemma CarriageReturnIsFine(line: string, w: Want)
    requires PlainLine(line)
    ensures Harmless(line + "\r", w) && Steady(line + "\r")
  {
    CarriageReturnTrims(line, IsBlank);
    CarriageReturnTrims(line, IsJsSpace);
    CarriageReturnLeads(line);
    PlainLineIsFine(line, w);
    SameReadings(line, line + "\r", w);
  }

  lemma CarriageReturnTrims(line: string, ws: char -> bool)
    requires ws('\r')
    ensures Trim(line + "\r", ws) == Trim(line, ws)
  {
    var a, b := TrimSplits(line, ws);
    var t := Trim(line, ws);
    assert line + "\r" == a + t + (b + "\r");
    assert AllIn(b + "\r", ws);
    hide Trim, AllIn;
    TrimCore(a, t, b + "\r", ws);
  }

  lemma SameReadings(line: string, other: string, w: Want)
    requires TrimBlanks(other) == TrimBlanks(line) && TrimJs(other) == TrimJs(line)
    requires var s, t := TrimLeft(line, IsSpaceOrTab), TrimLeft(other, IsSpaceOrTab);
             s != "" && s[0] == '[' <==> t != "" && t[0] == '['
    requires Harmless(line, w) && Steady(line)
    ensures Harmless(other, w) && Steady(other)
  {
    hide TrimLeft, TrimBlanks, TrimJs, IndexOf, SlotKind, KeyBefore, Unquote;
    assert ActiveKey(other) == ActiveKey(line) && CommentKey(other) == CommentKey(line);
    hide ActiveKey, CommentKey;
    assert KindOf(other) == KindOf(line) && ScanKindOf(other) == ScanKindOf(line) && JsLineOf(other) == JsLineOf(line);
  }

  lemma {:induction false} CarriageReturnLeads(line: string)
    ensures var s, t := TrimLeft(line, IsSpaceOrTab), TrimLeft(line + "\r", IsSpaceOrTab);
            t != "" && (s != "" ==> t[0] == s[0]) && (s == "" ==> t[0] == '\r')
  {
    if line != "" && IsSpaceOrTab(line[0]) {
      assert (line + "\r")[1..] == line[1..] + "\r";
      CarriageReturnLeads(line[1..]);
    }
  }

  /** A form feed hides a section header from the rewriter but not from the checker, so
      the rewritten block is still judged incoherent. */
  lemma FormFeedWitness(w: Want) returns (ls: seq<string>)
    requires PlainWant(w)
    ensures MadeOf(ls, "\U{000C}[x]") && !Coherent(Rewrite(ls, w), w.vps, w.idx)
  {
    FormFeedLine();
    ls := HiddenTable("\U{000C}[x]", w);
  }

  lemma FlushHasNoSections(w: Want)
    requires Readable(w)
    ensures forall i :: 0 <= i < |Flush(w, {})| ==> !JsLineOf(Flush(w, {})[i]).JsSection?
  {
    hide JsLineOf, SlotLine;
  }

  lemma FormFeedLine()
    ensures KindOf("\U{000C}[x]") == Other && JsLineOf("\U{000C}[x]") == JsSection(false)
  {
    var feed := "\U{000C}[x]";
    NoLeading(feed);
    TrimCore("", feed, "", IsBlank);
    assert "" + feed + "" == feed && '=' !in feed;
    TrimCore("\U{000C}", "[x]", "", IsJsSpace);
    assert "\U{000C}" + "[x]" + "" == feed;
    hide Trim, TrimLeft;
  }

  /** Lines without a section header outside `[fleet]` tell the checker nothing. */
  lemma {:induction false} OutsideFleet(c: Check, ls: seq<string>, w: Want)
    requires !c.inFleet && forall i :: 0 <= i < |ls| ==> !JsLineOf(ls[i]).JsSection?
    ensures CheckLines(c, ls, w.vps, w.idx) == c
    decreases ls
  {
    hide JsLineOf;
    if ls != [] {
      OutsideFleet(c, ls[1..], w);
    }
  }
}
