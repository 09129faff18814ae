/** The managed-config writer `mergeManaged` (fleet/src/managed/render.ts).

    A text means a list of assignments, each under the table in force on its
    line. Merging keeps the last value of every (table, key) in first-seen order;
    printing must give a text that means the merged list again. */
module ManagedRender {
  import opened Text

  const SUBSEP := "\U{0001}"
  const SENTINEL := "\U{0002}"

  datatype Entry = Entry(table: string, key: string, value: string)

  /** One line as the loops read it; `text` is the trimmed line. */
  datatype Line =
    | Ignored
    | Header(name: string)
    | Assign(key: string, value: string, text: string)
    | Unparsable(text: string)

  /** The header test `/^\[.*\]$/`. */
  predicate IsHeader(line: string) {
    |line| >= 2 && line[0] == '[' && line[|line| - 1] == ']' && NoTerminator(line)
  }

  function Classify(raw: string): Line {
    var line := TrimBlanks(raw);
    if line == "" || line[0] == '#' then Ignored
    else if IsHeader(line) then Header(TrimBlanks(line[1..|line| - 1]))
    else
      var eq := IndexOf(line, '=');
      if eq < 0 then Unparsable(line) else Assign(TrimBlanks(line[..eq]), TrimBlanks(line[eq + 1..]), line)
  }

  // ----- what a text means -----

  function Last<A>(s: seq<A>): A requires s != [] { s[|s| - 1] }

  function Front<A>(s: seq<A>): seq<A> requires s != [] { s[..|s| - 1] }

  function Map<A, B>(s: seq<A>, f: A -> B): (r: seq<B>)
    ensures |r| == |s| && forall i :: 0 <= i < |s| ==> r[i] == f(s[i])
  {
    if s == [] then [] else Map(Front(s), f) + [f(Last(s))]
  }

  function Parse(ls: seq<string>): seq<Line> {
    Map(ls, Classify)
  }

  /** The table in force after these lines. */
  function Section(ps: seq<Line>): string {
    if ps == [] then "" else if Last(ps).Header? then Last(ps).name else Section(Front(ps))
  }

  /** Every assignment, in order, with the table in force on its line. */
  function Assignments(ps: seq<Line>): seq<Entry> {
    if ps == [] then []
    else if Last(ps).Assign? then
      Assignments(Front(ps)) + [Entry(Section(Front(ps)), Last(ps).key, Last(ps).value)]
    else Assignments(Front(ps))
  }

  /** The assignments of a whole text. */
  function Meaning(text: string): seq<Entry> {
    Assignments(Parse(Lines(text)))
  }

  function Id(e: Entry): string {
    e.table + SUBSEP + e.key
  }

  /** The position of the entry with this id, or the length. */
  function Find(es: seq<Entry>, id: string): (i: nat)
    ensures i <= |es|
    ensures i < |es| ==> Id(es[i]) == id
    ensures forall j :: 0 <= j < i ==> Id(es[j]) != id
  {
    if es == [] then 0
    else if Id(es[0]) == id then 0
    else 1 + Find(es[1..], id)
  }

  /** A known id gets the new value in place; a new one goes to the end. */
  function Put(es: seq<Entry>, e: Entry): seq<Entry> {
    var i := Find(es, Id(e));
    if i < |es| then es[i := es[i].(value := e.value)] else es + [e]
  }

  function Merge(asgs: seq<Entry>): seq<Entry> {
    if asgs == [] then [] else Put(Merge(Front(asgs)), Last(asgs))
  }

  ghost predicate DistinctIds(es: seq<Entry>) {
    forall i, j :: 0 <= i < j < |es| ==> Id(es[i]) != Id(es[j])
  }

  // ----- printing -----

  function EntryLine(e: Entry): string {
    e.key + " = " + e.value
  }

  function HeaderLine(table: string): string {
    "[" + table + "]"
  }

  /** The lines of the canonical body: a header whenever the table changes. */
  function Print(es: seq<Entry>): seq<string> {
    if es == [] then []
    else
      var prev := if |es| == 1 then SENTINEL else es[|es| - 2].table;
      Print(Front(es))
      + (if Last(es).table != prev then [HeaderLine(Last(es).table)] else [])
      + [EntryLine(Last(es))]
  }

  /** The lines of all inputs, one file after the other; the table carries over. */
  function AllLines(inputs: seq<string>): seq<string> {
    if inputs == [] then [] else AllLines(Front(inputs)) + Lines(Last(inputs))
  }

  function Merged(inputs: seq<string>): seq<Entry> {
    Merge(Assignments(Parse(AllLines(inputs))))
  }

  function MergedText(inputs: seq<string>): string {
    Join(Print(Merged(inputs)))
  }

  /** The five variables of the merge loop hold the merged list. */
  ghost predicate Represents(order: seq<string>, seen: set<string>, tbl: map<string, string>,
                             key: map<string, string>, val: map<string, string>, es: seq<Entry>)
  {
    && |order| == |es|
    && (forall i :: 0 <= i < |es| ==> order[i] == Id(es[i]))
    && (forall i, j :: 0 <= i < j < |order| ==> order[i] != order[j])
    && (forall id :: id in seen <==> id in order)
    && (forall i :: 0 <= i < |order| ==>
          && order[i] in tbl && tbl[order[i]] == es[i].table
          && order[i] in key && key[order[i]] == es[i].key
          && order[i] in val && val[order[i]] == es[i].value)
  }

  /** Reads one line; `done` are the lines before it. */
  method ReadLine(raw: string, ghost done: seq<string>) returns (p: Line)
    ensures Parse(done + [raw]) == Parse(done) + [p]
  {
    p := Classify(raw);
    assert Front(done + [raw]) == done;
  }

  lemma OneMoreLine(ps: seq<Line>, p: Line)
    ensures Section(ps + [p]) == (if p.Header? then p.name else Section(ps))
    ensures Merge(Assignments(ps + [p]))
            == if p.Assign? then Put(Merge(Assignments(ps)), Entry(Section(ps), p.key, p.value))
               else Merge(Assignments(ps))
  {
    assert Front(ps + [p]) == ps;
    if p.Assign? {
      var e := Entry(Section(ps), p.key, p.value);
      assert Front(Assignments(ps) + [e]) == Assignments(ps);
    }
  }

  /** One assignment, in the loop's variables. */
  method Record(order: seq<string>, seen: set<string>, tbl: map<string, string>, key: map<string, string>,
                val: map<string, string>, sec: string, k: string, v: string, ghost es: seq<Entry>)
    returns (order': seq<string>, seen': set<string>, tbl': map<string, string>, key': map<string, string>,
             val': map<string, string>)
    requires Represents(order, seen, tbl, key, val, es)
    ensures Represents(order', seen', tbl', key', val', Put(es, Entry(sec, k, v)))
  {
    order', seen', tbl', key' := order, seen, tbl, key;
    var id := sec + SUBSEP + k;
    if id !in seen {
      seen' := seen + {id};
      order' := order + [id];
      tbl' := tbl[id := sec];
      key' := key[id := k];
    }
    val' := val[id := v];
    assert id == Id(Entry(sec, k, v));
  }

  /** The variables of the merge loop after the lines of one file. */
  datatype Scan = Scan(sec: string, order: seq<string>, seen: set<string>, tbl: map<string, string>,
                       key: map<string, string>, val: map<string, string>)

  ghost predicate Scanned(c: Scan, done: seq<string>) {
    c.sec == Section(Parse(done)) &&
    Represents(c.order, c.seen, c.tbl, c.key, c.val, Merge(Assignments(Parse(done))))
  }

  method ScanFile(ls: seq<string>, c: Scan, ghost before: seq<string>) returns (c': Scan)
    requires Scanned(c, before)
    ensures Scanned(c', before + ls)
  {
    hide Represents, Merge, Assignments, Section, Put, Parse;
    var Scan(sec, order, seen, tbl, key, val) := c;
    ghost var done := before;
    for n := 0 to |ls|
      invariant done == before + ls[..n]
      invariant Scanned(Scan(sec, order, seen, tbl, key, val), done)
    {
      var p := ReadLine(ls[n], done);
      OneMoreLine(Parse(done), p);
      match p {
        case Ignored =>
        case Unparsable(_) =>
        case Header(name) =>
          sec := name;
        case Assign(k, v, _) =>
          order, seen, tbl, key, val := Record(order, seen, tbl, key, val, sec, k, v, Merge(Assignments(Parse(done))));
      }
      done := done + [ls[n]];
    }
    assert before + ls[..|ls|] == before + ls;
    c' := Scan(sec, order, seen, tbl, key, val);
  }

  /** The merge loop over all files, then the print loop. */
  method MergeManaged(inputs: seq<string>) returns (text: string)
    ensures text == MergedText(inputs)
  {
    var c := Scan("", [], {}, map[], map[], map[]);
    for f := 0 to |inputs|
      invariant Scanned(c, AllLines(inputs[..f]))
    {
      assert Front(inputs[..f + 1]) == inputs[..f] && Last(inputs[..f + 1]) == inputs[f];
      c := ScanFile(Lines(inputs[f]), c, AllLines(inputs[..f]));
    }
    assert inputs[..|inputs|] == inputs;
    text := PrintBody(c.order, c.seen, c.tbl, c.key, c.val, Merged(inputs));
  }

  method PrintBody(order: seq<string>, ghost seen: set<string>, tbl: map<string, string>,
                   key: map<string, string>, val: map<string, string>, ghost es: seq<Entry>)
    returns (text: string)
    requires Represents(order, seen, tbl, key, val, es)
    ensures text == Join(Print(es))
  {
    var out: seq<string> := [];
    var lastTbl := SENTINEL;
    for i := 0 to |order|
      invariant out == Print(es[..i])
      invariant lastTbl == if i == 0 then SENTINEL else es[i - 1].table
    {
      var id := order[i];
      var t := tbl[id];
      assert Front(es[..i + 1]) == es[..i] && Last(es[..i + 1]) == es[i];
      if t != lastTbl {
        out := out + [HeaderLine(t)];
        lastTbl := t;
      }
      out := out + [key[id] + " = " + val[id]];
    }
    assert es[..|es|] == es;
    text := Join(out);
  }

  // ----- merging is last-wins, in first-seen order -----

  /** The value of the last assignment to (table, key). */
  function LastValue(asgs: seq<Entry>, table: string, key: string): (v: string)
    requires exists i :: 0 <= i < |asgs| && asgs[i].table == table && asgs[i].key == key
  {
    if Last(asgs).table == table && Last(asgs).key == key then Last(asgs).value
    else
      assert forall i :: 0 <= i < |asgs| - 1 ==> Front(asgs)[i] == asgs[i];
      LastValue(Front(asgs), table, key)
  }

  /** The position of the first assignment to (table, key), or the length. */
  function FirstAt(asgs: seq<Entry>, table: string, key: string): (i: nat)
    ensures i <= |asgs|
    ensures i < |asgs| ==> asgs[i].table == table && asgs[i].key == key
    ensures forall j :: 0 <= j < i ==> asgs[j].table != table || asgs[j].key != key
  {
    if asgs == [] then 0
    else
      var i := FirstAt(Front(asgs), table, key);
      if i < |asgs| - 1 then i
      else if Last(asgs).table == table && Last(asgs).key == key then |asgs| - 1
      else |asgs|
  }

  /** Without U+0001 in a table or key the id is as good as the pair. */
  ghost predicate SeparatorFree(asgs: seq<Entry>) {
    forall i :: 0 <= i < |asgs| ==> SUBSEP[0] !in asgs[i].table && SUBSEP[0] !in asgs[i].key
  }

  lemma IdsArePairs(a: Entry, b: Entry)
    requires SUBSEP[0] !in a.table && SUBSEP[0] !in b.table
    requires Id(a) == Id(b)
    ensures a.table == b.table && a.key == b.key
  {
    assert Id(a) == a.table + [SUBSEP[0]] + a.key;
    assert Id(b) == b.table + [SUBSEP[0]] + b.key;
    IndexOfAt(a.table, SUBSEP[0], a.key);
    IndexOfAt(b.table, SUBSEP[0], b.key);
    assert a.table == Id(a)[..|a.table|] && a.key == Id(a)[|a.table| + 1..];
    assert b.table == Id(b)[..|b.table|] && b.key == Id(b)[|b.table| + 1..];
  }

  ghost predicate SamePair(a: Entry, b: Entry) {
    a.table == b.table && a.key == b.key
  }

  /** `e` holds the last value given to its pair. */
  ghost predicate HoldsLast(asgs: seq<Entry>, e: Entry) {
    FirstAt(asgs, e.table, e.key) < |asgs| && e.value == LastValue(asgs, e.table, e.key)
  }

  /** Entries of one id are of one pair. */
  ghost predicate CollisionFree(asgs: seq<Entry>) {
    forall i, j :: 0 <= i < |asgs| && 0 <= j < |asgs| && Id(asgs[i]) == Id(asgs[j]) ==> SamePair(asgs[i], asgs[j])
  }

  ghost predicate Apart(es: seq<Entry>, e: Entry) {
    forall i :: 0 <= i < |es| && Id(es[i]) == Id(e) ==> SamePair(es[i], e)
  }

  lemma SeparatorFreeIsEnough(asgs: seq<Entry>)
    requires SeparatorFree(asgs)
    ensures CollisionFree(asgs)
  {
    hide Id;
    forall i, j | 0 <= i < |asgs| && 0 <= j < |asgs| && Id(asgs[i]) == Id(asgs[j]) ensures SamePair(asgs[i], asgs[j]) {
      IdsArePairs(asgs[i], asgs[j]);
    }
  }

  lemma FindsThePair(es: seq<Entry>, e: Entry)
    requires Apart(es, e)
    ensures var at := Find(es, Id(e));
            && (forall i :: 0 <= i < |es| && SamePair(es[i], e) ==> Id(es[i]) == Id(e))
            && (at < |es| ==> SamePair(es[at], e))
            && (at == |es| ==> forall i :: 0 <= i < |es| ==> !SamePair(es[i], e))
  {
    assert forall i :: 0 <= i < |es| && SamePair(es[i], e) ==> Id(es[i]) == Id(e);
    hide Id, SamePair;
  }

  /** How one more assignment changes who holds the last value. */
  lemma HoldsLastSnoc(pre: seq<Entry>, e: Entry, x: Entry)
    ensures SamePair(x, e) ==> (HoldsLast(pre + [e], x) <==> x.value == e.value)
    ensures !SamePair(x, e) ==> (HoldsLast(pre + [e], x) <==> HoldsLast(pre, x))
  {
    assert Front(pre + [e]) == pre;
  }

  lemma FirstAtSnoc(pre: seq<Entry>, e: Entry, x: Entry)
    ensures FirstAt(pre + [e], x.table, x.key)
            == if FirstAt(pre, x.table, x.key) < |pre| then FirstAt(pre, x.table, x.key)
               else if SamePair(x, e) then |pre| else |pre| + 1
  {
    assert Front(pre + [e]) == pre;
  }

  ghost predicate AllHoldLast(asgs: seq<Entry>, es: seq<Entry>) {
    forall m :: 0 <= m < |es| ==> HoldsLast(asgs, es[m])
  }

  ghost predicate HasPair(es: seq<Entry>, e: Entry) {
    exists m :: 0 <= m < |es| && SamePair(es[m], e)
  }

  ghost predicate Covers(es: seq<Entry>, asgs: seq<Entry>) {
    forall i :: 0 <= i < |asgs| ==> HasPair(es, asgs[i])
  }

  lemma PutHoldsLast(pre: seq<Entry>, e: Entry, was: seq<Entry>)
    requires Apart(was, e) && DistinctIds(was) && AllHoldLast(pre, was)
    ensures AllHoldLast(pre + [e], Put(was, e))
  {
    hide HoldsLast, Apart;
    var now, at := Put(was, e), Find(was, Id(e));
    FindsThePair(was, e);
    forall m | 0 <= m < |now| ensures HoldsLast(pre + [e], now[m]) {
      HoldsLastSnoc(pre, e, now[m]);
    }
  }

  lemma PutCovers(pre: seq<Entry>, e: Entry, was: seq<Entry>)
    requires Apart(was, e) && Covers(was, pre)
    ensures Covers(Put(was, e), pre + [e])
  {
    hide Apart;
    var now, at := Put(was, e), Find(was, Id(e));
    FindsThePair(was, e);
    var asgs := pre + [e];
    forall i | 0 <= i < |asgs| ensures HasPair(now, asgs[i]) {
      if i < |pre| {
        assert asgs[i] == pre[i] && HasPair(was, pre[i]);
        var m :| 0 <= m < |was| && SamePair(was[m], pre[i]);
        assert SamePair(now[m], asgs[i]);
      } else {
        assert asgs[i] == e && SamePair(now[at], asgs[i]);
      }
    }
  }

  lemma LastIsApart(pre: seq<Entry>, e: Entry, was: seq<Entry>)
    requires CollisionFree(pre + [e]) && AllHoldLast(pre, was)
    ensures Apart(was, e) && CollisionFree(pre)
  {
    var asgs := pre + [e];
    assert asgs[|pre|] == e && forall i :: 0 <= i < |pre| ==> asgs[i] == pre[i];
    HeldIsAssigned(pre, was);
    hide CollisionFree, FirstAt, AllHoldLast, Id;
    forall m | 0 <= m < |was| && Id(was[m]) == Id(e) ensures SamePair(was[m], e) {
      var i := FirstAt(pre, was[m].table, was[m].key);
      FirstAtIsPair(pre, was[m]);
      OneId(pre[i], was[m]);
      OnePair(asgs, i, |pre|);
    }
    forall i, k | 0 <= i < |pre| && 0 <= k < |pre| && Id(pre[i]) == Id(pre[k]) ensures SamePair(pre[i], pre[k]) {
      OnePair(asgs, i, k);
    }
    assert CollisionFree(pre) by { AreApart(pre); }
  }

  lemma AreApart(pre: seq<Entry>)
    requires forall i, k :: 0 <= i < |pre| && 0 <= k < |pre| && Id(pre[i]) == Id(pre[k]) ==> SamePair(pre[i], pre[k])
    ensures CollisionFree(pre)
  {
  }

  lemma OnePair(asgs: seq<Entry>, i: nat, k: nat)
    requires CollisionFree(asgs) && i < |asgs| && k < |asgs| && Id(asgs[i]) == Id(asgs[k])
    ensures SamePair(asgs[i], asgs[k])
  {
  }

  lemma OneId(a: Entry, b: Entry)
    requires SamePair(a, b)
    ensures Id(a) == Id(b)
  {
  }

  lemma FirstAtIsPair(pre: seq<Entry>, e: Entry)
    requires FirstAt(pre, e.table, e.key) < |pre|
    ensures SamePair(pre[FirstAt(pre, e.table, e.key)], e)
  {
  }

  lemma {:induction false} MergeHoldsLast(asgs: seq<Entry>)
    requires CollisionFree(asgs)
    ensures AllHoldLast(asgs, Merge(asgs)) && Covers(Merge(asgs), asgs) && InFirstSeenOrder(asgs, Merge(asgs))
  {
    if asgs != [] {
      var pre, e := Front(asgs), Last(asgs);
      assert Merge(asgs) == Put(Merge(pre), e) && pre + [e] == asgs;
      assert CollisionFree(pre);
      hide *;
      MergeHoldsLast(pre);
      LastIsApart(pre, e, Merge(pre));
      MergeHasDistinctIds(pre);
      PutHoldsLast(pre, e, Merge(pre));
      PutCovers(pre, e, Merge(pre));
      PutKeepsOrder(pre, e, Merge(pre));
    }
  }

  lemma CoveringIsCollisionFree(es: seq<Entry>, asgs: seq<Entry>)
    requires DistinctIds(es) && Covers(es, asgs)
    ensures CollisionFree(asgs)
  {
    hide Id, SamePair;
    forall i, j | 0 <= i < |asgs| && 0 <= j < |asgs| && Id(asgs[i]) == Id(asgs[j]) ensures SamePair(asgs[i], asgs[j]) {
      assert HasPair(es, asgs[i]) && HasPair(es, asgs[j]);
      var m :| 0 <= m < |es| && SamePair(es[m], asgs[i]);
      var n :| 0 <= n < |es| && SamePair(es[n], asgs[j]);
      OneId(es[m], asgs[i]);
      OneId(es[n], asgs[j]);
      assert m == n;
      SamePairJoins(es[m], asgs[i], asgs[j]);
    }
  }

  lemma SamePairJoins(a: Entry, b: Entry, c: Entry)
    requires SamePair(a, b) && SamePair(a, c)
    ensures SamePair(b, c)
  {
  }

  /** The merged list never has two entries of one id. It has every assigned pair exactly
      when no two assigned pairs share an id; then it has them all with their last value,
      in the order of their first assignments. */
  lemma MergeIsLastWins(asgs: seq<Entry>)
    ensures DistinctIds(Merge(asgs))
    ensures Covers(Merge(asgs), asgs) <==> CollisionFree(asgs)
    ensures CollisionFree(asgs) ==> AllHoldLast(asgs, Merge(asgs)) && InFirstSeenOrder(asgs, Merge(asgs))
  {
    hide *;
    MergeHasDistinctIds(asgs);
    if CollisionFree(asgs) {
      MergeHoldsLast(asgs);
    }
    if Covers(Merge(asgs), asgs) {
      CoveringIsCollisionFree(Merge(asgs), asgs);
    }
  }

  /** Where the pair of each entry was first assigned. */
  ghost function Positions(asgs: seq<Entry>, es: seq<Entry>): seq<nat> {
    Map(es, (e: Entry) => FirstAt(asgs, e.table, e.key))
  }

  ghost predicate InFirstSeenOrder(asgs: seq<Entry>, es: seq<Entry>) {
    var at := Positions(asgs, es);
    forall m, n :: 0 <= m < n < |at| ==> at[m] < at[n]
  }

  lemma PutKeepsOrder(pre: seq<Entry>, e: Entry, was: seq<Entry>)
    requires Apart(was, e)
    requires AllHoldLast(pre, was) && Covers(was, pre) && InFirstSeenOrder(pre, was)
    ensures InFirstSeenOrder(pre + [e], Put(was, e))
  {
    PutPositions(pre, e, was);
    HeldIsAssigned(pre, was);
    hide FirstAt, Put, Find, HoldsLast, Apart, Covers;
  }

  lemma PutShape(was: seq<Entry>, e: Entry)
    ensures if Find(was, Id(e)) == |was| then Put(was, e) == was + [e]
            else |Put(was, e)| == |was| && forall m :: 0 <= m < |was| ==> SamePair(Put(was, e)[m], was[m])
  {
  }

  lemma PutPositions(pre: seq<Entry>, e: Entry, was: seq<Entry>)
    requires Apart(was, e)
    requires AllHoldLast(pre, was) && Covers(was, pre)
    ensures Positions(pre + [e], Put(was, e))
            == Positions(pre, was) + (if Find(was, Id(e)) == |was| then [|pre|] else [])
  {
    hide *;
    PutShape(was, e);
    FindsThePair(was, e);
    if Find(was, Id(e)) == |was| {
      NewPairPositions(pre, e, was);
    } else {
      SamePositions(pre, e, was, Put(was, e));
    }
  }

  lemma NewPairPositions(pre: seq<Entry>, e: Entry, was: seq<Entry>)
    requires AllHoldLast(pre, was) && Covers(was, pre)
    requires forall i :: 0 <= i < |was| ==> !SamePair(was[i], e)
    ensures Positions(pre + [e], was + [e]) == Positions(pre, was) + [|pre|]
  {
    assert forall m :: 0 <= m < |was| ==> SamePair(was[m], was[m]);
    hide *;
    NewPairIsNew(pre, e, was);
    FirstAtNew(pre, e);
    SamePositions(pre, e, was, was);
    PositionsAppend(pre + [e], was, e);
  }

  lemma FirstAtNew(pre: seq<Entry>, e: Entry)
    requires FirstAt(pre, e.table, e.key) == |pre|
    ensures FirstAt(pre + [e], e.table, e.key) == |pre|
  {
    FirstAtSnoc(pre, e, e);
  }

  lemma PositionsAppend(asgs: seq<Entry>, es: seq<Entry>, e: Entry)
    ensures Positions(asgs, es + [e]) == Positions(asgs, es) + [FirstAt(asgs, e.table, e.key)]
  {
    hide FirstAt, Map;
  }

  lemma SamePositions(pre: seq<Entry>, e: Entry, was: seq<Entry>, now: seq<Entry>)
    requires AllHoldLast(pre, was)
    requires |now| == |was| && forall m :: 0 <= m < |was| ==> SamePair(now[m], was[m])
    ensures Positions(pre + [e], now) == Positions(pre, was)
  {
    HeldIsAssigned(pre, was);
    hide AllHoldLast, FirstAt, Map;
    forall m | 0 <= m < |was|
      ensures FirstAt(pre + [e], now[m].table, now[m].key) == FirstAt(pre, was[m].table, was[m].key)
    {
      FirstAtSnoc(pre, e, now[m]);
    }
  }

  lemma HeldIsAssigned(pre: seq<Entry>, was: seq<Entry>)
    requires AllHoldLast(pre, was)
    ensures forall m :: 0 <= m < |was| ==> FirstAt(pre, was[m].table, was[m].key) < |pre|
  {
    forall m | 0 <= m < |was| ensures FirstAt(pre, was[m].table, was[m].key) < |pre| {
      assert HoldsLast(pre, was[m]);
    }
  }

  lemma NewPairIsNew(pre: seq<Entry>, e: Entry, was: seq<Entry>)
    requires Covers(was, pre)
    requires forall m :: 0 <= m < |was| ==> !SamePair(was[m], e)
    ensures FirstAt(pre, e.table, e.key) == |pre|
  {
    forall i | 0 <= i < |pre| ensures !SamePair(pre[i], e) {
      assert HasPair(was, pre[i]);
      var m :| 0 <= m < |was| && SamePair(was[m], pre[i]);
      assert !SamePair(was[m], e);
    }
    hide Covers;
    assert FirstAt(pre, e.table, e.key) < |pre| ==> SamePair(pre[FirstAt(pre, e.table, e.key)], e);
  }

  lemma {:induction false} MergeHasDistinctIds(asgs: seq<Entry>)
    ensures DistinctIds(Merge(asgs))
  {
    if asgs != [] {
      MergeHasDistinctIds(Front(asgs));
    }
  }

  lemma {:induction false} MergeOfDistinct(es: seq<Entry>)
    requires DistinctIds(es)
    ensures Merge(es) == es
  {
    if es != [] {
      var pre, e := Front(es), Last(es);
      assert Find(pre, Id(e)) == |pre| by {
        assert forall i :: 0 <= i < |pre| ==> Id(pre[i]) == Id(es[i]) != Id(e);
      }
      assert Put(pre, e) == pre + [e] == es;
      assert Merge(es) == Put(Merge(pre), e);
      assert DistinctIds(pre);
      hide *;
      MergeOfDistinct(pre);
    }
  }

  // ----- one line of output, read again -----

  /** An entry whose line reads as a table header: the blanks that kept its own
      input line from being one are gone from the printed line. */
  predicate Phantom(e: Entry) {
    && e.key != "" && e.key[0] == '['
    && e.value != "" && e.value[|e.value| - 1] == ']'
    && NoTerminator(e.key) && NoTerminator(e.value)
  }

  /** What every parsed assignment satisfies. */
  predicate Proper(e: Entry) {
    && Trimmed(e.table, IsBlank) && NoTerminator(e.table)
    && Trimmed(e.key, IsBlank) && '\n' !in e.key && '=' !in e.key && (e.key == "" || e.key[0] != '#')
    && Trimmed(e.value, IsBlank) && '\n' !in e.value
  }

  lemma ClassifyIsProper(raw: string)
    requires '\n' !in raw
    ensures Classify(raw).Header? ==> Proper(Entry(Classify(raw).name, "", ""))
    ensures Classify(raw).Assign? ==> Proper(Entry("", Classify(raw).key, Classify(raw).value))
  {
    var line := TrimBlanks(raw);
    TrimKeepsChars(raw, IsBlank);
    match Classify(raw)
    case Header(n) =>
      var inner := line[1..|line| - 1];
      var _, _ := TrimSplits(inner, IsBlank);
      TrimKeepsChars(inner, IsBlank);
      assert forall c :: c in inner ==> c in line;
    case Assign(k, v, _) =>
      KeyIsProper(raw);
      var tail := line[IndexOf(line, '=') + 1..];
      var _, _ := TrimSplits(tail, IsBlank);
      TrimKeepsChars(tail, IsBlank);
      assert forall c :: c in tail ==> c in line;
    case _ =>
  }

  lemma KeyIsProper(raw: string)
    requires '\n' !in raw && Classify(raw).Assign?
    ensures Proper(Entry("", Classify(raw).key, ""))
  {
    var line := TrimBlanks(raw);
    var eq := IndexOf(line, '=');
    var head := line[..eq];
    var k := TrimBlanks(head);
    var _, _ := TrimSplits(raw, IsBlank);
    var c, d := TrimSplits(head, IsBlank);
    TrimKeepsChars(raw, IsBlank);
    TrimKeepsChars(head, IsBlank);
    assert forall ch :: ch in head ==> ch in line;
    if k != "" {
      assert !IsBlank(line[0]) && head[0] == line[0];
      assert c == [];
      assert k[0] == head[0];
    }
  }

  /** The part of being proper that is about one line. */
  predicate ProperLine(p: Line) {
    && (p.Header? ==> Proper(Entry(p.name, "", "")))
    && (p.Assign? ==> Proper(Entry("", p.key, p.value)))
  }

  lemma {:induction false} AssignmentsAreProper(ps: seq<Line>)
    requires forall i :: 0 <= i < |ps| ==> ProperLine(ps[i])
    ensures Proper(Entry(Section(ps), "", ""))
    ensures AllProper(Assignments(ps))
  {
    if ps != [] {
      AssignmentsAreProper(Front(ps));
      assert ProperLine(Last(ps));
    }
  }

  lemma HeaderLineReads(e: Entry)
    requires Proper(e)
    ensures Classify(HeaderLine(e.table)) == Header(e.table)
  {
    hide Classify;
    BracketedReads(e.table);
  }

  lemma BracketedShape(t: string)
    requires NoTerminator(t)
    ensures var line := "[" + t + "]"; IsHeader(line) && line[1..|line| - 1] == t
    ensures Trimmed("[" + t + "]", IsBlank)
  {
  }

  lemma TrimmedStays(t: string)
    requires Trimmed(t, IsBlank)
    ensures TrimBlanks(t) == t
  {
    assert "" + t + "" == t && AllIn("", IsBlank);
    hide Trim;
    TrimCore("", t, "", IsBlank);
  }

  lemma BracketedReads(t: string)
    requires Trimmed(t, IsBlank) && NoTerminator(t)
    ensures Classify("[" + t + "]") == Header(t)
  {
    hide Trim, IndexOf, IsHeader, NoTerminator, Trimmed;
    BracketedShape(t);
    TrimmedStays("[" + t + "]");
    TrimmedStays(t);
  }

  /** The text of an entry line once its outer blanks are gone. */
  function Core(e: Entry): string {
    Before(e) + "=" + After(e)
  }

  function Before(e: Entry): string { if e.key == "" then "" else e.key + " " }

  function After(e: Entry): string { if e.value == "" then "" else " " + e.value }

  lemma Ends(a: string, b: string)
    ensures var t := a + "=" + b;
            && t[0] == (if a == "" then '=' else a[0])
            && t[|t| - 1] == (if b == "" then '=' else b[|b| - 1])
  {
  }

  lemma CoreEnds(e: Entry)
    ensures var t := Core(e);
            && t != "" && t[0] == (if e.key == "" then '=' else e.key[0])
            && t[|t| - 1] == (if e.value == "" then '=' else e.value[|e.value| - 1])
  {
    Ends(Before(e), After(e));
    assert e.value != "" ==> After(e)[|After(e)| - 1] == e.value[|e.value| - 1];
  }

  /** The blank a missing key or value leaves at the end of the printed line. */
  function Pad(part: string): string { if part == "" then " " else "" }

  lemma EntryLineIsPadded(e: Entry)
    ensures EntryLine(e) == Pad(e.key) + Core(e) + Pad(e.value)
    ensures AllIn(Pad(e.key), IsBlank) && AllIn(Pad(e.value), IsBlank)
  {
    if e.key == "" {
      assert EntryLine(e) == " " + ("=" + (" " + e.value));
    } else {
      assert EntryLine(e) == e.key + " " + ("=" + (" " + e.value));
    }
    assert " " + e.value == After(e) + Pad(e.value);
  }

  lemma CoreIsTrimmed(e: Entry)
    requires Trimmed(e.key, IsBlank) && Trimmed(e.value, IsBlank) && (e.key == "" || e.key[0] != '#')
    ensures Trimmed(Core(e), IsBlank) && Core(e) != "" && Core(e)[0] != '#'
  {
    hide Core;
    CoreEnds(e);
  }

  lemma EntryLineCore(e: Entry)
    requires Proper(e)
    ensures TrimBlanks(EntryLine(e)) == Core(e) && Core(e) != "" && Core(e)[0] != '#'
  {
    assert TrimBlanks(EntryLine(e)) == Trim(EntryLine(e), IsBlank);
    assert Trimmed(e.key, IsBlank) && Trimmed(e.value, IsBlank) && (e.key == "" || e.key[0] != '#') by { hide Trim; }
    hide *;
    CoreIsTrimmed(e);
    EntryLineIsPadded(e);
    TrimCore(Pad(e.key), Core(e), Pad(e.value), IsBlank);
  }

  lemma CoreSplits(e: Entry)
    requires Proper(e)
    ensures var t, eq := Core(e), IndexOf(Core(e), '=');
            0 <= eq < |t| && t[..eq] == Before(e) && t[eq + 1..] == After(e)
  {
    hide IndexOf;
    var t := Core(e);
    assert t == Before(e) + ['='] + After(e);
    assert '=' !in Before(e);
    IndexOfAt(Before(e), '=', After(e));
  }

  lemma CoreParts(e: Entry)
    requires Proper(e)
    ensures TrimBlanks(Before(e)) == e.key && TrimBlanks(After(e)) == e.value
  {
    hide Trim;
    TrimCore("", e.key, if e.key == "" then "" else " ", IsBlank);
    assert Before(e) == "" + e.key + (if e.key == "" then "" else " ");
    TrimCore(if e.value == "" then "" else " ", e.value, "", IsBlank);
    assert After(e) == (if e.value == "" then "" else " ") + e.value + "";
  }

  lemma CoreTerminators(e: Entry)
    ensures NoTerminator(Core(e)) <==> NoTerminator(e.key) && NoTerminator(e.value)
  {
    var t := Core(e);
    assert forall c :: c in e.key || c in e.value ==> c in t;
    assert forall c :: c in t ==> c in e.key || c in e.value || c == ' ' || c == '=';
    hide Core;
  }

  lemma CoreIsHeader(e: Entry)
    requires Proper(e)
    ensures IsHeader(Core(e)) <==> Phantom(e)
  {
    hide NoTerminator, Proper, Core;
    CoreTerminators(e);
    CoreEnds(e);
  }

  lemma PhantomName(e: Entry)
    requires Phantom(e)
    ensures var t := Core(e); |t| >= 2 && '=' in TrimBlanks(t[1..|t| - 1])
  {
    var t := Core(e);
    assert t == e.key + " = " + e.value;
    assert t[|e.key| + 1] == '=' && 1 <= |e.key| + 1 < |t| - 1;
    hide Core, Phantom;
    EqualsSurvives(t, |e.key| + 1);
  }

  lemma EqualsSurvives(t: string, i: nat)
    requires 1 <= i < |t| - 1 && t[i] == '='
    ensures '=' in TrimBlanks(t[1..|t| - 1])
  {
    hide Trim;
    var inner := t[1..|t| - 1];
    assert inner[i - 1] == '=';
    var c, d := TrimSplits(inner, IsBlank);
    assert '=' in c + TrimBlanks(inner) + d;
  }

  /** A printed entry reads back as itself, unless it is a phantom header. */
  lemma EntryLineReads(e: Entry)
    requires Proper(e)
    ensures !Phantom(e) ==> Classify(EntryLine(e)) == Assign(e.key, e.value, Core(e))
    ensures Phantom(e) ==> Classify(EntryLine(e)).Header? && '=' in Classify(EntryLine(e)).name
  {
    hide Trim, Core, IsHeader, IndexOf, Proper, Phantom;
    EntryLineCore(e);
    CoreIsHeader(e);
    CoreSplits(e);
    CoreParts(e);
    if Phantom(e) {
      PhantomName(e);
    }
  }

  // ----- printing and parsing undo each other -----

  ghost predicate AllProper(es: seq<Entry>) {
    forall i :: 0 <= i < |es| ==> Proper(es[i])
  }

  ghost predicate NoPhantom(es: seq<Entry>) {
    forall i :: 0 <= i < |es| ==> !Phantom(es[i])
  }

  /** The first table is printed: it is not the print loop's starting value. */
  predicate FirstTablePrinted(es: seq<Entry>) {
    es != [] ==> es[0].table != SENTINEL
  }

  /** Does the print loop write a header before the last entry? */
  predicate Headed(es: seq<Entry>)
    requires es != []
  {
    Last(es).table != if |es| == 1 then SENTINEL else es[|es| - 2].table
  }

  /** How the entry lines of a printed list read. */
  function PrintedLines(es: seq<Entry>): seq<Line> {
    Map(Map(es, EntryLine), Classify)
  }

  /** A printed list as lines: the headers, and `ps[i]` for the line of entry i. */
  function Layout(es: seq<Entry>, ps: seq<Line>): seq<Line>
    requires |ps| == |es|
  {
    if es == [] then []
    else Layout(Front(es), Front(ps)) + (if Headed(es) then [Header(Last(es).table)] else []) + [Last(ps)]
  }

  /** An entry line reads as its assignment or as a header. */
  ghost predicate Fits(es: seq<Entry>, ps: seq<Line>) {
    |ps| == |es| &&
    forall i :: 0 <= i < |es| ==>
      ps[i].Header? || (ps[i].Assign? && ps[i].key == es[i].key && ps[i].value == es[i].value)
  }

  ghost predicate AllAssign(ps: seq<Line>) {
    forall i :: 0 <= i < |ps| ==> ps[i].Assign?
  }

  lemma MapAppend<A, B>(a: seq<A>, b: seq<A>, f: A -> B)
    ensures Map(a + b, f) == Map(a, f) + Map(b, f)
  {
    hide Map;
  }

  lemma {:induction false} PrintMaps(es: seq<Entry>, f: string -> Line)
    requires forall i :: 0 <= i < |es| ==> f(HeaderLine(es[i].table)) == Header(es[i].table)
    ensures Map(Print(es), f) == Layout(es, Map(Map(es, EntryLine), f))
  {
    if es != [] {
      var front, e := Front(es), Last(es);
      PrintMaps(front, f);
      hide Map;
      var header := if Headed(es) then [HeaderLine(e.table)] else [];
      MapAppend(Print(front) + header, [EntryLine(e)], f);
      MapAppend(Print(front), header, f);
      assert Front(Map(Map(es, EntryLine), f)) == Map(Map(front, EntryLine), f);
    }
  }

  lemma PrintIsLayout(es: seq<Entry>)
    requires AllProper(es)
    ensures Parse(Print(es)) == Layout(es, PrintedLines(es))
  {
    forall i | 0 <= i < |es| ensures Classify(HeaderLine(es[i].table)) == Header(es[i].table) {
      HeaderLineReads(es[i]);
    }
    PrintMaps(es, Classify);
  }

  lemma PrintedLinesFit(es: seq<Entry>)
    requires AllProper(es)
    ensures Fits(es, PrintedLines(es))
    ensures AllAssign(PrintedLines(es)) <==> NoPhantom(es)
    ensures forall i :: 0 <= i < |es| && PrintedLines(es)[i].Header? ==> '=' in PrintedLines(es)[i].name
  {
    forall i | 0 <= i < |es|
      ensures var p := PrintedLines(es)[i];
              if Phantom(es[i]) then p.Header? && '=' in p.name
              else p.Assign? && p.key == es[i].key && p.value == es[i].value
    {
      EntryLineReads(es[i]);
    }
  }

  /** What the lines of one more entry add to the meaning of a printed list. */
  lemma LayoutStep(es: seq<Entry>, ps: seq<Line>)
    requires es != [] && Fits(es, ps)
    ensures var pre, e, p := Layout(Front(es), Front(ps)), Last(es), Last(ps);
            var table := if Headed(es) then e.table else Section(pre);
            && (p.Header? ==> Assignments(Layout(es, ps)) == Assignments(pre))
            && (p.Assign? ==> Assignments(Layout(es, ps)) == Assignments(pre) + [Entry(table, e.key, e.value)]
                              && Section(Layout(es, ps)) == table)
  {
    var pre, e, p := Layout(Front(es), Front(ps)), Last(es), Last(ps);
    var mid := pre + (if Headed(es) then [Header(e.table)] else []);
    assert Front(mid + [p]) == mid;
    if Headed(es) {
      assert Front(mid) == pre;
    } else {
      assert mid == pre;
    }
  }

  ghost predicate HeadersMarked(ps: seq<Line>) {
    forall i :: 0 <= i < |ps| && ps[i].Header? ==> '=' in ps[i].name
  }

  /** The conditions on a list, one entry at a time. */
  lemma Peel(es: seq<Entry>, ps: seq<Line>)
    requires es != [] && Fits(es, ps)
    ensures Fits(Front(es), Front(ps))
    ensures Last(ps).Header? || (Last(ps).Assign? && Last(ps).key == Last(es).key && Last(ps).value == Last(es).value)
    ensures HeadersMarked(ps) ==> HeadersMarked(Front(ps)) && (Last(ps).Header? ==> '=' in Last(ps).name)
    ensures AllAssign(ps) <==> AllAssign(Front(ps)) && Last(ps).Assign?
  {
  }

  /** A table without a header of its own is the one in force. */
  lemma NotHeaded(es: seq<Entry>)
    requires es != [] && FirstTablePrinted(es)
    ensures FirstTablePrinted(Front(es))
    ensures !Headed(es) ==> Front(es) != [] && Last(Front(es)).table == Last(es).table
    ensures Front(es) + [Last(es)] == es
  {
  }

  lemma {:induction false} LayoutReads(es: seq<Entry>, ps: seq<Line>)
    requires Fits(es, ps) && AllAssign(ps) && FirstTablePrinted(es)
    ensures Assignments(Layout(es, ps)) == es
    ensures es != [] ==> Section(Layout(es, ps)) == Last(es).table
  {
    if es != [] {
      hide Layout, Assignments, Section, Headed, Fits, AllAssign, FirstTablePrinted;
      Peel(es, ps);
      NotHeaded(es);
      LayoutStep(es, ps);
      LayoutReads(Front(es), Front(ps));
    } else {
      assert Layout([], []) == [];
    }
  }

  /** A printed list never reads back longer, and shorter as soon as one entry
      line is a header. */
  lemma {:induction false} HeaderIsLost(es: seq<Entry>, ps: seq<Line>)
    requires Fits(es, ps)
    ensures |Assignments(Layout(es, ps))| <= |es|
    ensures !AllAssign(ps) ==> |Assignments(Layout(es, ps))| < |es|
  {
    if es != [] {
      hide Layout, Assignments, Section, Headed, Fits, AllAssign;
      Peel(es, ps);
      LayoutStep(es, ps);
      HeaderIsLost(Front(es), Front(ps));
    } else {
      assert Layout([], []) == [];
    }
  }

  /** A first table equal to the sentinel loses its header, and with it its name. */
  lemma {:induction false} SentinelTableIsLost(es: seq<Entry>, ps: seq<Line>)
    requires es != [] && Fits(es, ps) && !FirstTablePrinted(es) && ps[0].Assign?
    ensures Assignments(Layout(es, ps)) != [] && Assignments(Layout(es, ps))[0].table == ""
  {
    LayoutStep(es, ps);
    if |es| > 1 {
      SentinelTableIsLost(Front(es), Front(ps));
    }
  }

  lemma {:induction false} AllLinesHaveNoNewlines(inputs: seq<string>)
    ensures NoNewlines(AllLines(inputs))
  {
    if inputs != [] {
      AllLinesHaveNoNewlines(Front(inputs));
      LinesHaveNoNewlines(Last(inputs));
    }
  }

  lemma {:induction false} MergeKeepsProper(asgs: seq<Entry>)
    requires AllProper(asgs)
    ensures AllProper(Merge(asgs))
  {
    if asgs != [] {
      MergeKeepsProper(Front(asgs));
    }
  }

  lemma MergedIsProper(inputs: seq<string>)
    ensures AllProper(Merged(inputs)) && DistinctIds(Merged(inputs))
  {
    var ls := AllLines(inputs);
    AllLinesHaveNoNewlines(inputs);
    forall i | 0 <= i < |ls| ensures ProperLine(Parse(ls)[i]) {
      ClassifyIsProper(ls[i]);
    }
    AssignmentsAreProper(Parse(ls));
    MergeKeepsProper(Assignments(Parse(ls)));
    MergeHasDistinctIds(Assignments(Parse(ls)));
  }

  lemma {:induction false} PrintHasNoNewlines(es: seq<Entry>)
    requires AllProper(es)
    ensures NoNewlines(Print(es))
    ensures es != [] ==> Print(es) != []
  {
    if es != [] {
      PrintHasNoNewlines(Front(es));
      assert Proper(Last(es));
    }
  }

  /** What a printed list means. */
  lemma PrintedMeaning(es: seq<Entry>)
    requires AllProper(es)
    ensures Meaning(Join(Print(es))) == Assignments(Layout(es, PrintedLines(es)))
    ensures es != [] ==> Lines(Join(Print(es))) == Print(es) && Parse(Print(es)) == Layout(es, PrintedLines(es))
  {
    PrintHasNoNewlines(es);
    PrintIsLayout(es);
    if es == [] {
      BlankLineMeansNothing();
    } else {
      LinesOfJoin(Print(es));
    }
  }

  /** What the merged text means. */
  lemma MergedTextMeaning(inputs: seq<string>)
    ensures Meaning(MergedText(inputs)) == Assignments(Layout(Merged(inputs), PrintedLines(Merged(inputs))))
  {
    MergedIsProper(inputs);
    hide Merged;
    PrintedMeaning(Merged(inputs));
  }

  /** Reading the merged text gives the merged list, exactly when no merged entry
      is a phantom header and the first table is not the print sentinel. */
  lemma RereadGivesTheMergedList(inputs: seq<string>)
    ensures Meaning(MergedText(inputs)) == Merged(inputs)
            <==> NoPhantom(Merged(inputs)) && FirstTablePrinted(Merged(inputs))
  {
    var es := Merged(inputs);
    MergedTextMeaning(inputs);
    MergedIsProper(inputs);
    PrintedLinesFit(es);
    RereadLayout(es, PrintedLines(es));
  }

  lemma RereadLayout(es: seq<Entry>, ps: seq<Line>)
    requires Fits(es, ps)
    ensures Assignments(Layout(es, ps)) == es <==> AllAssign(ps) && FirstTablePrinted(es)
  {
    HeaderIsLost(es, ps);
    if AllAssign(ps) {
      if FirstTablePrinted(es) {
        LayoutReads(es, ps);
      } else {
        SentinelTableIsLost(es, ps);
        assert es[0].table == SENTINEL;
      }
    }
  }

  lemma SameMeaningSameText(xs: seq<string>, ys: seq<string>)
    requires Merged(xs) == Merged(ys)
    ensures MergedText(xs) == MergedText(ys)
  {
  }

  lemma MergedOfOne(text: string)
    ensures AllLines([text]) == Lines(text) && Merged([text]) == Merge(Meaning(text))
  {
    assert AllLines([text]) == [] + Lines(text);
  }

  /** How a text of two tables with one entry each reads. */
  lemma TwoTables(a: Entry, b: Entry)
    requires Proper(a) && Proper(b) && !Phantom(a) && !Phantom(b)
    ensures var text := Join([HeaderLine(a.table), EntryLine(a), HeaderLine(b.table), EntryLine(b)]);
            Meaning(text) == [a, b] && Merged([text]) == Merge([a, b])
  {
    var ls := [HeaderLine(a.table), EntryLine(a), HeaderLine(b.table), EntryLine(b)];
    EntryLineReads(a);
    HeaderLineReads(a);
    EntryLineReads(b);
    HeaderLineReads(b);
    hide Lines, Join, Classify, Proper, Phantom, Merge;
    LinesOfTables(a, b);
    MergedOfOne(Join(ls));
    FourLinesRead(ls, a, b);
  }

  lemma LinesOfTables(a: Entry, b: Entry)
    requires Proper(a) && Proper(b)
    ensures var ls := [HeaderLine(a.table), EntryLine(a), HeaderLine(b.table), EntryLine(b)];
            Lines(Join(ls)) == ls
  {
    var ls := [HeaderLine(a.table), EntryLine(a), HeaderLine(b.table), EntryLine(b)];
    assert IsTerminator('\n');
    assert '\n' !in HeaderLine(a.table) && '\n' !in HeaderLine(b.table);
    assert '\n' !in EntryLine(a) && '\n' !in EntryLine(b);
    hide Lines, Join, Proper, HeaderLine, EntryLine;
    LinesOfJoin(ls);
  }

  lemma FourLinesRead(ls: seq<string>, a: Entry, b: Entry)
    requires |ls| == 4 && Classify(ls[0]) == Header(a.table) && Classify(ls[2]) == Header(b.table)
    requires Classify(ls[1]).Assign? && Classify(ls[1]).key == a.key && Classify(ls[1]).value == a.value
    requires Classify(ls[3]).Assign? && Classify(ls[3]).key == b.key && Classify(ls[3]).value == b.value
    ensures Assignments(Parse(ls)) == [a, b]
  {
    var h, p, g, q := Classify(ls[0]), Classify(ls[1]), Classify(ls[2]), Classify(ls[3]);
    hide Classify;
    assert Parse(ls) == [h, p, g, q];
    var none: seq<Line> := [];
    assert Front([h, p, g, q]) == [h, p, g] && Front([h, p, g]) == [h, p];
    assert Front([h, p]) == [h] && Front([h]) == none;
    assert Section([h]) == a.table && Assignments(none) == [] && Assignments([h]) == [];
    assert Assignments([h, p]) == [] + [a] && Assignments([h, p, g]) == [a] && Section([h, p, g]) == b.table;
    assert Assignments([h, p, g, q]) == [a] + [b];
  }

  /** With U+0001 in the input two pairs may share an id: this text gives two keys a value
      and keeps one of them, with the other's. */
  lemma SeparatorCollision()
    ensures var text := "[a\U{0001}b]\nc = 1\n[a]\nb\U{0001}c = 2";
            && Meaning(text) == [Entry("a\U{0001}b", "c", "1"), Entry("a", "b\U{0001}c", "2")]
            && Merged([text]) == [Entry("a\U{0001}b", "c", "2")]
  {
    var a, b := Entry("a\U{0001}b", "c", "1"), Entry("a", "b\U{0001}c", "2");
    assert Proper(a) && Proper(b) && !Phantom(a) && !Phantom(b);
    var x, y, z, u := HeaderLine(a.table), EntryLine(a), HeaderLine(b.table), EntryLine(b);
    FourJoined(x, y, z, u);
    assert x + "\n" + y + "\n" + z + "\n" + u == "[a\U{0001}b]\nc = 1\n[a]\nb\U{0001}c = 2";
    assert Id(a) == Id(b) by { assert Id(a) == "a\U{0001}b\U{0001}c"; }
    MergeOfColliding(a, b);
    hide Meaning, Merged, Merge, Join, Proper, Phantom, HeaderLine, EntryLine;
    TwoTables(a, b);
  }

  lemma FourJoined(x: string, y: string, z: string, u: string)
    ensures Join([x, y, z, u]) == x + "\n" + y + "\n" + z + "\n" + u
  {
    assert [x, y, z, u][1..] == [y, z, u] && [y, z, u][1..] == [z, u] && [z, u][1..] == [u];
    assert Join([z, u]) == z + "\n" + u;
    assert Join([y, z, u]) == y + "\n" + (z + "\n" + u);
  }

  lemma MergeOfColliding(a: Entry, b: Entry)
    requires Id(a) == Id(b)
    ensures Merge([a, b]) == [a.(value := b.value)]
  {
    hide Id;
    assert Front([a, b]) == [a] && Front([a]) == [];
    assert Merge([a]) == [a];
  }

  lemma {:induction false} MergeIsNoLonger(asgs: seq<Entry>)
    ensures |Merge(asgs)| <= |asgs|
    ensures asgs != [] ==> Merge(asgs) != [] && Merge(asgs)[0].table == asgs[0].table
  {
    if asgs != [] {
      hide Id;
      MergeIsNoLonger(Front(asgs));
      assert Put([], Last(asgs)) == [Last(asgs)];
    }
  }

  /** Merging the merged text again gives the same list exactly when no merged entry is a
      phantom header and the first table is printed; and then it changes no byte. */
  lemma MergeIsIdempotent(inputs: seq<string>)
    ensures Merged([MergedText(inputs)]) == Merged(inputs)
            <==> NoPhantom(Merged(inputs)) && FirstTablePrinted(Merged(inputs))
    ensures NoPhantom(Merged(inputs)) && FirstTablePrinted(Merged(inputs)) ==>
              MergedText([MergedText(inputs)]) == MergedText(inputs)
  {
    var es, text := Merged(inputs), MergedText(inputs);
    var ps := PrintedLines(es);
    hide PrintedLines, Merged, MergedText, Meaning, Merge, Assignments, Layout;
    RereadGivesTheMergedList(inputs);
    MergedOfOne(text);
    MergedIsProper(inputs);
    MergedTextMeaning(inputs);
    PrintedLinesFit(es);
    MergeIsNoLonger(Meaning(text));
    HeaderIsLost(es, ps);
    if NoPhantom(es) && FirstTablePrinted(es) {
      MergeOfDistinct(es);
      SameMeaningSameText([text], inputs);
    } else if NoPhantom(es) {
      assert ps[0].Assign?;
      SentinelTableIsLost(es, ps);
      assert SENTINEL != "";
    }
  }

  // ----- the texts that a merge leaves as they are -----

  /** A list that its printed text means again. */
  ghost predicate Good(es: seq<Entry>) {
    AllProper(es) && DistinctIds(es) && NoPhantom(es) && FirstTablePrinted(es)
  }

  lemma GoodReadsBack(es: seq<Entry>)
    requires Good(es)
    ensures Meaning(Join(Print(es))) == es && Merged([Join(Print(es))]) == es
    ensures MergedText([Join(Print(es))]) == Join(Print(es))
  {
    var text, ps := Join(Print(es)), PrintedLines(es);
    hide Meaning, Merged, Print, PrintedLines, Layout, Assignments, Merge, Fits, AllAssign;
    PrintedMeaning(es);
    PrintedLinesFit(es);
    RereadLayout(es, ps);
    MergedOfOne(text);
    MergeOfDistinct(es);
    assert MergedText([text]) == text;
  }

  lemma FixedPointIsGood(text: string)
    requires MergedText([text]) == text
    ensures Good(Merged([text])) && Merged([text]) == Meaning(text)
  {
    var es := Merged([text]);
    var ps := PrintedLines(es);
    assert SENTINEL != "";
    hide PrintedLines, Merged, MergedText, Meaning, Merge, Assignments, Layout;
    MergedOfOne(text);
    MergedIsProper([text]);
    MergedTextMeaning([text]);
    PrintedLinesFit(es);
    MergeIsNoLonger(Meaning(text));
    HeaderIsLost(es, ps);
    if NoPhantom(es) && !FirstTablePrinted(es) {
      assert ps[0].Assign?;
      SentinelTableIsLost(es, ps);
    }
    if NoPhantom(es) && FirstTablePrinted(es) {
      RereadLayout(es, ps);
    }
  }

  /** A line in its place: a header as it prints, of another table than the one in force,
      with an assignment below it; or an assignment as it prints, under a header. */
  predicate InPlace(ls: seq<string>, i: nat)
    requires i < |ls|
  {
    match Classify(ls[i])
    case Header(name) =>
      && ls[i] == HeaderLine(name) && i + 1 < |ls| && Classify(ls[i + 1]).Assign?
      && name != if i == 0 then SENTINEL else Section(Parse(ls[..i]))
    case Assign(key, value, _) => i > 0 && ls[i] == key + " = " + value
    case _ => false
  }

  ghost predicate Canonical(ls: seq<string>) {
    && (forall i :: 0 <= i < |ls| ==> InPlace(ls, i))
    && DistinctIds(Assignments(Parse(ls)))
  }

  lemma OneMoreRead(ls: seq<string>, n: nat)
    requires n < |ls|
    ensures var ps, p := Parse(ls[..n]), Classify(ls[n]);
            && Section(Parse(ls[..n + 1])) == (if p.Header? then p.name else Section(ps))
            && Assignments(Parse(ls[..n + 1]))
               == Assignments(ps) + if p.Assign? then [Entry(Section(ps), p.key, p.value)] else []
  {
    assert ls[..n + 1] == ls[..n] + [ls[n]];
    assert [ls[n]][..0] == [];
    MapAppend(ls[..n], [ls[n]], Classify);
    assert Map([ls[n]], Classify) == [Classify(ls[n])];
    assert Front(Parse(ls[..n]) + [Classify(ls[n])]) == Parse(ls[..n]);
    hide Classify;
  }

  /** Where the reading of lines in their places stands: `es` and the table in force print
      as the lines read, up to a header that has nothing below it yet. */
  ghost predicate ReadsTo(es: seq<Entry>, sec: string, done: seq<string>, open: bool) {
    if done == [] then es == [] && !open
    else if open then Print(es) + [HeaderLine(sec)] == done && sec != if es == [] then SENTINEL else Last(es).table
    else es != [] && Print(es) == done && sec == Last(es).table
  }

  ghost predicate ReadsSoFar(ls: seq<string>, n: nat)
    requires n <= |ls|
  {
    ReadsTo(Assignments(Parse(ls[..n])), Section(Parse(ls[..n])), ls[..n], n > 0 && Classify(ls[n - 1]).Header?)
  }

  lemma HeaderStep(es: seq<Entry>, sec: string, done: seq<string>, name: string)
    requires ReadsTo(es, sec, done, false) && name != if done == [] then SENTINEL else sec
    ensures ReadsTo(es, name, done + [HeaderLine(name)], true)
  {
    assert Print([]) == [];
    hide Print, HeaderLine;
  }

  lemma AssignStep(es: seq<Entry>, done: seq<string>, open: bool, e: Entry)
    requires done != [] && ReadsTo(es, e.table, done, open)
    ensures ReadsTo(es + [e], e.table, done + [EntryLine(e)], false)
  {
    PrintSnoc(es, e);
    hide Print, HeaderLine, EntryLine;
    assert Last(es + [e]) == e;
    assert Print(es) + [] == Print(es);
  }

  lemma PrintSnoc(es: seq<Entry>, e: Entry)
    ensures var prev := if es == [] then SENTINEL else Last(es).table;
            Print(es + [e]) == Print(es) + (if e.table != prev then [HeaderLine(e.table)] else []) + [EntryLine(e)]
  {
    assert Front(es + [e]) == es;
  }

  lemma {:induction false} CanonicalReads(ls: seq<string>, n: nat)
    requires n <= |ls| && forall i :: 0 <= i < |ls| ==> InPlace(ls, i)
    ensures ReadsSoFar(ls, n)
  {
    if n > 0 {
      CanonicalReads(ls, n - 1);
      assert InPlace(ls, n - 1);
      if n > 1 {
        assert InPlace(ls, n - 2);
      }
      OneMoreRead(ls, n - 1);
      hide Classify, Assignments, Section, Parse, ReadsTo, HeaderLine;
      ReadOn(ls, n - 1);
    } else {
      assert ls[..0] == [] && Parse([]) == [];
    }
  }

  lemma OneLineOn(es: seq<Entry>, sec: string, done: seq<string>, open: bool, line: string, p: Line)
    requires ReadsTo(es, sec, done, open) && (p.Header? || p.Assign?)
    requires p.Header? ==> !open && line == HeaderLine(p.name) && p.name != if done == [] then SENTINEL else sec
    requires p.Assign? ==> done != [] && line == p.key + " = " + p.value
    ensures ReadsTo(es + (if p.Assign? then [Entry(sec, p.key, p.value)] else []),
                    if p.Header? then p.name else sec, done + [line], p.Header?)
  {
    hide ReadsTo, HeaderLine;
    if p.Header? {
      HeaderStep(es, sec, done, p.name);
      assert es + [] == es;
    } else {
      AssignStep(es, done, open, Entry(sec, p.key, p.value));
    }
  }

  lemma ReadOn(ls: seq<string>, n: nat)
    requires n < |ls| && ReadsSoFar(ls, n) && InPlace(ls, n)
    requires n > 0 && Classify(ls[n - 1]).Header? ==> Classify(ls[n]).Assign?
    ensures ReadsSoFar(ls, n + 1)
  {
    hide Classify, Assignments, Section, Parse, ReadsTo, HeaderLine;
    var ps, p := Parse(ls[..n]), Classify(ls[n]);
    assert ls[..n + 1] == ls[..n] + [ls[n]];
    assert n == 0 <==> ls[..n] == [];
    OneMoreRead(ls, n);
    OneLineOn(Assignments(ps), Section(ps), ls[..n], n > 0 && Classify(ls[n - 1]).Header?, ls[n], p);
  }

  lemma StandsLonger(ls: seq<string>, more: seq<string>, i: nat)
    requires i < |ls| && InPlace(ls, i)
    ensures InPlace(ls + more, i)
  {
    assert (ls + more)[..i] == ls[..i];
    hide Classify, Section, Parse;
  }

  lemma EntryInPlace(lead: seq<string>, e: Entry)
    requires lead != [] && Classify(EntryLine(e)).Assign?
    requires Classify(EntryLine(e)).key == e.key && Classify(EntryLine(e)).value == e.value
    ensures InPlace(lead + [EntryLine(e)], |lead|)
  {
    hide Classify;
  }

  lemma HeaderInPlace(lead: seq<string>, e: Entry)
    requires Classify(HeaderLine(e.table)) == Header(e.table) && Classify(EntryLine(e)).Assign?
    requires e.table != if lead == [] then SENTINEL else Section(Parse(lead))
    ensures InPlace(lead + [HeaderLine(e.table)] + [EntryLine(e)], |lead|)
  {
    var ls := lead + [HeaderLine(e.table)] + [EntryLine(e)];
    assert ls[..|lead|] == lead && ls[|lead| + 1] == EntryLine(e);
    hide Classify, Section, Parse, HeaderLine, EntryLine;
  }

  lemma PrintUnfolds(es: seq<Entry>)
    requires es != []
    ensures Print(es)
            == Print(Front(es)) + (if Headed(es) then [HeaderLine(Last(es).table)] else []) + [EntryLine(Last(es))]
    ensures Headed(es) <==> Last(es).table != if Front(es) == [] then SENTINEL else Last(Front(es)).table
  {
  }

  lemma PeelGood(es: seq<Entry>)
    requires es != [] && AllProper(es) && NoPhantom(es)
    ensures AllProper(Front(es)) && NoPhantom(Front(es)) && Proper(Last(es)) && !Phantom(Last(es))
  {
    hide Phantom, Proper;
  }

  lemma {:induction false} GoodPrintStands(es: seq<Entry>)
    requires AllProper(es) && NoPhantom(es) && FirstTablePrinted(es)
    ensures forall i :: 0 <= i < |Print(es)| ==> InPlace(Print(es), i)
  {
    hide Classify, Phantom, Proper, Print, Section, Parse, InPlace, FirstTablePrinted, EntryLine, HeaderLine, AllProper,
        NoPhantom, Headed;
    PrintEnds(es);
    if es != [] {
      PeelGood(es);
      NotHeaded(es);
      PrintUnfolds(es);
      GoodPrintStands(Front(es));
      PrintEnds(Front(es));
      EntryLineReads(Last(es));
      HeaderLineReads(Last(es));
      LastStands(Print(es), Print(Front(es)), Last(es), Headed(es));
    }
  }

  lemma LastStands(ls: seq<string>, lead: seq<string>, e: Entry, headed: bool)
    requires forall i :: 0 <= i < |lead| ==> InPlace(lead, i)
    requires Classify(HeaderLine(e.table)) == Header(e.table) && Classify(EntryLine(e)).Assign?
    requires Classify(EntryLine(e)).key == e.key && Classify(EntryLine(e)).value == e.value
    requires if headed then e.table != (if lead == [] then SENTINEL else Section(Parse(lead))) else lead != []
    requires ls == lead + (if headed then [HeaderLine(e.table)] else []) + [EntryLine(e)]
    ensures forall i :: 0 <= i < |ls| ==> InPlace(ls, i)
  {
    hide Classify, Section, Parse, InPlace, HeaderLine, EntryLine;
    if headed {
      HeaderInPlace(lead, e);
      EntryInPlace(lead + [HeaderLine(e.table)], e);
      AllStand(lead, [HeaderLine(e.table)] + [EntryLine(e)]);
      assert lead + ([HeaderLine(e.table)] + [EntryLine(e)]) == ls;
    } else {
      EntryInPlace(lead, e);
      AllStand(lead, [EntryLine(e)]);
      assert lead + [] == lead;
    }
    forall i | 0 <= i < |ls| ensures InPlace(ls, i) {
    }
  }

  lemma AllStand(ls: seq<string>, more: seq<string>)
    requires forall i :: 0 <= i < |ls| ==> InPlace(ls, i)
    ensures forall i :: 0 <= i < |ls| ==> InPlace(ls + more, i)
  {
    hide InPlace;
    forall i | 0 <= i < |ls| ensures InPlace(ls + more, i) {
      StandsLonger(ls, more, i);
    }
  }

  /** After a printed list its last table is in force. */
  lemma PrintEnds(es: seq<Entry>)
    requires AllProper(es) && NoPhantom(es) && FirstTablePrinted(es)
    ensures es == [] <==> Print(es) == []
    ensures es != [] ==> Section(Parse(Print(es))) == Last(es).table
  {
    PrintHasNoNewlines(es);
    PrintIsLayout(es);
    PrintedLinesFit(es);
    hide Phantom, Proper, Section, Parse, Layout, PrintedLines;
    LayoutReads(es, PrintedLines(es));
  }

  /** A text is left as it is by a merge exactly if it is empty or its lines are each in
      its place and assign no id twice. These texts are the printed good lists. */
  lemma FixedPointsAreCanonical(text: string)
    ensures MergedText([text]) == text <==> text == "" || Canonical(Lines(text))
    ensures MergedText([text]) == text <==> exists es :: Good(es) && Join(Print(es)) == text
  {
    var ls := Lines(text);
    if MergedText([text]) == text {
      var es := Merged([text]);
      FixedPointIsGood(text);
      assert Join(Print(es)) == text;
      GoodPrintStands(es);
      hide Merged, MergedText, Meaning, Print, InPlace, Good;
      assert AllProper(es) && DistinctIds(es) by { GoodParts(es); }
      PrintedMeaning(es);
      if es == [] {
        NothingJoins(es);
      } else {
        assert Meaning(text) == Assignments(Parse(ls)) by { MeaningIs(text); }
      }
    }
    if Canonical(ls) {
      CanonicalReads(ls, |ls|);
      assert ls[..|ls|] == ls;
      var es := Meaning(text);
      assert InPlace(ls, |ls| - 1);
      assert Print(es) == ls && DistinctIds(es);
      hide Canonical, Print, Classify, InPlace, ReadsSoFar, Lines;
      JoinOfLines(text);
      MergedOfOne(text);
      MergeOfDistinct(es);
    }
    if text == "" {
      BlankLineMeansNothing();
      MergedOfOne("");
      NothingJoins([]);
    }
    if exists es :: Good(es) && Join(Print(es)) == text {
      var es :| Good(es) && Join(Print(es)) == text;
      GoodReadsBack(es);
    }
  }

  /** Of a merged text that can be read off the lines it prints. */
  lemma MergedTextStaysExactly(inputs: seq<string>)
    ensures MergedText([MergedText(inputs)]) == MergedText(inputs) <==> Canonical(Print(Merged(inputs)))
  {
    var es, text := Merged(inputs), MergedText(inputs);
    MergedIsProper(inputs);
    if es == [] {
      EmptyIsCanonical(es);
      NothingJoins(es);
      assert text == "";
    } else {
      SomethingPrints(inputs);
    }
    hide Merged, Canonical, Lines, Print, Join;
    PrintedMeaning(es);
    FixedPointsAreCanonical(text);
  }

  lemma EmptyIsCanonical(es: seq<Entry>)
    requires es == []
    ensures Canonical(Print(es))
  {
    assert Print(es) == [] && Parse([]) == [];
  }

  lemma GoodParts(es: seq<Entry>)
    requires Good(es)
    ensures AllProper(es) && DistinctIds(es)
  {
  }

  lemma MeaningIs(text: string)
    ensures Meaning(text) == Assignments(Parse(Lines(text)))
  {
  }

  lemma NothingJoins(es: seq<Entry>)
    requires es == []
    ensures Join(Print(es)) == "" && Merge(es) == es
  {
  }

  /** A merged text that changes no byte when merged again, although the list changes: a
      phantom between two assignments prints as the header of a table of its own. */
  lemma BytesStayListChanges()
    ensures var text := "[t]\nx = 1\n[a\r=b]\nk = v";
            var merged := MergedText([text]);
            && Merged([text]) == [Entry("t", "x", "1"), Entry("t", "[a", "b]"), Entry("t", "k", "v")]
            && MergedText([merged]) == merged
            && Merged([merged]) == [Entry("t", "x", "1"), Entry("a = b", "k", "v")]
  {
    var x, p, k, y := Entry("t", "x", "1"), Entry("t", "[a", "b]"), Entry("t", "k", "v"), Entry("a = b", "k", "v");
    WitnessLines(x, p, k, y);
    hide Merged, MergedText, Print, Join, HeaderLine, EntryLine;
    PhantomBetween(x, p, k);
    PrintOfThree(x, p, k);
    PrintedFrom([Join(["[t]", "x = 1", "[a\r=b]", "k = v"])], [x, p, k]);
    TwoTablesStay(x, y);
  }

  lemma WitnessLines(x: Entry, p: Entry, k: Entry, y: Entry)
    requires x == Entry("t", "x", "1") && p == Entry("t", "[a", "b]") && k == Entry("t", "k", "v")
    requires y == Entry("a = b", "k", "v")
    ensures Join(["[t]", "x = 1", "[a\r=b]", "k = v"]) == "[t]\nx = 1\n[a\r=b]\nk = v"
    ensures HeaderLine(y.table) == EntryLine(p) && EntryLine(y) == EntryLine(k)
    ensures Proper(x) && !Phantom(x) && Proper(y) && !Phantom(y) && Id(x) != Id(y) && x.table != SENTINEL
  {
    FourJoined("[t]", "x = 1", "[a\r=b]", "k = v");
    assert Id(x)[0] == 't' && Id(y)[0] == 'a';
    hide Join, Id;
  }

  /** A text of two tables with one entry each is left as it is. */
  lemma TwoTablesStay(x: Entry, y: Entry)
    requires Proper(x) && !Phantom(x) && Proper(y) && !Phantom(y)
    requires Id(x) != Id(y) && x.table != SENTINEL && x.table != y.table
    ensures var text := Join([HeaderLine(x.table), EntryLine(x), HeaderLine(y.table), EntryLine(y)]);
            Merged([text]) == [x, y] && MergedText([text]) == text
  {
    var text := Join([HeaderLine(x.table), EntryLine(x), HeaderLine(y.table), EntryLine(y)]);
    hide Merged, MergedText, Merge, Print, Join, Proper, Phantom, HeaderLine, EntryLine, Id;
    TwoTables(x, y);
    PrintOfTwo(x, y);
    MergeOfDistinct([x, y]);
    PrintedFrom([text], [x, y]);
  }

  lemma PrintedFrom(inputs: seq<string>, es: seq<Entry>)
    requires Merged(inputs) == es
    ensures MergedText(inputs) == Join(Print(es))
  {
  }

  lemma PrintOfThree(x: Entry, p: Entry, k: Entry)
    requires x.table == p.table == k.table != SENTINEL
    ensures Print([x, p, k]) == [HeaderLine(x.table), EntryLine(x), EntryLine(p), EntryLine(k)]
  {
    hide HeaderLine, EntryLine;
    assert [x] == [] + [x] && [x, p] == [x] + [p] && [x, p, k] == [x, p] + [k];
    assert Print([]) == [];
    PrintSnoc([], x);
    PrintSnoc([x], p);
    PrintSnoc([x, p], k);
  }

  lemma PrintOfTwo(x: Entry, y: Entry)
    requires x.table != SENTINEL && x.table != y.table
    ensures Print([x, y]) == [HeaderLine(x.table), EntryLine(x), HeaderLine(y.table), EntryLine(y)]
  {
    hide HeaderLine, EntryLine;
    assert [x] == [] + [x] && [x, y] == [x] + [y];
    assert Print([]) == [];
    PrintSnoc([], x);
    PrintSnoc([x], y);
  }

  /** The text of the witness, read for the first time. */
  lemma PhantomBetween(x: Entry, p: Entry, k: Entry)
    requires x == Entry("t", "x", "1") && p == Entry("t", "[a", "b]") && k == Entry("t", "k", "v")
    ensures Merged([Join(["[t]", "x = 1", "[a\r=b]", "k = v"])]) == [x, p, k]
  {
    var ls := ["[t]", "x = 1", "[a\r=b]", "k = v"];
    assert Proper(x) && !Phantom(x) && Proper(k) && !Phantom(k);
    assert HeaderLine("t") == "[t]" && EntryLine(x) == "x = 1" && EntryLine(k) == "k = v";
    assert NoNewlines(ls);
    ThreeDistinct(x, p, k);
    hide Merge, Join, Lines, Classify, Proper, Phantom, HeaderLine, EntryLine, Id;
    EntryLineReads(x);
    HeaderLineReads(x);
    EntryLineReads(k);
    WitnessLineReads();
    LinesOfJoin(ls);
    MergedOfOne(Join(ls));
    OneTableReads(ls, x, p, k);
  }

  lemma ThreeDistinct(x: Entry, p: Entry, k: Entry)
    requires x == Entry("t", "x", "1") && p == Entry("t", "[a", "b]") && k == Entry("t", "k", "v")
    ensures Merge([x, p, k]) == [x, p, k]
  {
    assert Id(x)[2] == 'x' && Id(p)[2] == '[' && Id(k)[2] == 'k';
    hide Id;
    MergeOfDistinct([x, p, k]);
  }

  lemma OneTableReads(ls: seq<string>, x: Entry, p: Entry, k: Entry)
    requires |ls| == 4 && Classify(ls[0]) == Header(x.table) && x.table == p.table == k.table
    requires Classify(ls[1]).Assign? && Classify(ls[1]).key == x.key && Classify(ls[1]).value == x.value
    requires Classify(ls[2]).Assign? && Classify(ls[2]).key == p.key && Classify(ls[2]).value == p.value
    requires Classify(ls[3]).Assign? && Classify(ls[3]).key == k.key && Classify(ls[3]).value == k.value
    ensures Assignments(Parse(ls)) == [x, p, k]
  {
    hide Classify, Assignments, Section, Parse;
    assert ls[..4] == ls && ls[..0] == [];
    NothingRead();
    OneMoreRead(ls, 0);
    OneMoreRead(ls, 1);
    OneMoreRead(ls, 2);
    OneMoreRead(ls, 3);
  }

  lemma NothingRead()
    ensures Assignments(Parse([])) == []
  {
  }

  // ----- inputs a caller can recognise as safe -----

  /** No trimmed line holds a carriage return or one of the two control characters. */
  predicate Plain(ls: seq<string>) {
    forall i :: 0 <= i < |ls| ==>
      '\r' !in TrimBlanks(ls[i]) && SUBSEP[0] !in TrimBlanks(ls[i]) && SENTINEL[0] !in TrimBlanks(ls[i])
  }

  lemma BracketedIsHeader(k: string, b: string, c: string, v: string)
    requires k != "" && k[0] == '[' && v != "" && v[|v| - 1] == ']'
    requires NoTerminator(k) && NoTerminator(v)
    requires AllIn(b, IsBlank) && AllIn(c, IsBlank) && '\r' !in b && '\r' !in c
    ensures IsHeader(k + b + "=" + c + v)
  {
    var line := k + b + "=" + c + v;
    forall ch | ch in line ensures !IsTerminator(ch) {
      assert ch in k || ch in b || ch == '=' || ch in c || ch in v;
    }
  }

  /** Without a carriage return a phantom's own input line is already a header. */
  lemma PlainLineIsNoPhantom(raw: string)
    requires '\r' !in TrimBlanks(raw) && Classify(raw).Assign?
    ensures !Phantom(Entry("", Classify(raw).key, Classify(raw).value))
  {
    var line := TrimBlanks(raw);
    var eq := IndexOf(line, '=');
    var k, v := Classify(raw).key, Classify(raw).value;
    assert k == TrimBlanks(line[..eq]) && v == TrimBlanks(line[eq + 1..]) && line == line[..eq] + "=" + line[eq + 1..];
    assert !IsHeader(line);
    hide Trim, IndexOf, Classify, IsHeader, NoTerminator;
    var _, _ := TrimSplits(raw, IsBlank);
    NoHeaderNoPhantom(line, line[..eq], line[eq + 1..]);
  }

  lemma NoHeaderNoPhantom(line: string, head: string, tail: string)
    requires Trimmed(line, IsBlank) && '\r' !in line && !IsHeader(line) && line == head + "=" + tail
    ensures !Phantom(Entry("", TrimBlanks(head), TrimBlanks(tail)))
  {
    hide Trim, NoTerminator;
    var a, b := TrimSplits(head, IsBlank);
    var c, d := TrimSplits(tail, IsBlank);
    var k, v := TrimBlanks(head), TrimBlanks(tail);
    if k != "" && v != "" && k[0] == '[' && v[|v| - 1] == ']' && NoTerminator(k) && NoTerminator(v) {
      LineShape(line, a, k, b, c, v, d);
      hide *;
      BracketedIsHeader(k, b, c, v);
    }
  }

  /** In a trimmed line with a key and a value, blanks stand only around `=`. */
  lemma LineShape(line: string, a: string, k: string, b: string, c: string, v: string, d: string)
    requires Trimmed(line, IsBlank) && '\r' !in line
    requires line == (a + k + b) + "=" + (c + v + d) && k != "" && v != ""
    requires AllIn(a, IsBlank) && AllIn(d, IsBlank)
    ensures line == k + b + "=" + c + v && '\r' !in b && '\r' !in c
  {
    assert line[|a|] == k[0];
    assert a == [];
    assert d == [];
  }

  lemma PlainLineParts(raw: string, c: char)
    requires c !in TrimBlanks(raw)
    ensures Classify(raw).Header? ==> c !in Classify(raw).name
    ensures Classify(raw).Assign? ==> c !in Classify(raw).key
  {
    var line := TrimBlanks(raw);
    if Classify(raw).Header? {
      var inner := line[1..|line| - 1];
      assert c !in inner;
      TrimKeepsChars(inner, IsBlank);
    } else if Classify(raw).Assign? {
      var head := line[..IndexOf(line, '=')];
      assert c !in head;
      TrimKeepsChars(head, IsBlank);
    }
  }

  /** The part of being plain that is about one line. */
  predicate PlainLine(p: Line) {
    && (p.Header? ==> SUBSEP[0] !in p.name && SENTINEL[0] !in p.name)
    && (p.Assign? ==> SUBSEP[0] !in p.key && !Phantom(Entry("", p.key, p.value)))
  }

  lemma {:induction false} PlainAssignments(ps: seq<Line>)
    requires forall i :: 0 <= i < |ps| ==> PlainLine(ps[i])
    ensures SUBSEP[0] !in Section(ps) && SENTINEL[0] !in Section(ps)
    ensures Unmarked(Assignments(ps))
  {
    if ps != [] {
      PlainAssignments(Front(ps));
      assert PlainLine(Last(ps));
    }
  }

  ghost predicate Unmarked(asgs: seq<Entry>) {
    && SeparatorFree(asgs) && NoPhantom(asgs)
    && forall i :: 0 <= i < |asgs| ==> asgs[i].table != SENTINEL
  }

  lemma {:induction false} MergeKeepsNoPhantom(asgs: seq<Entry>)
    requires Unmarked(asgs)
    ensures Unmarked(Merge(asgs))
  {
    if asgs != [] {
      var pre, e := Merge(Front(asgs)), Last(asgs);
      MergeKeepsNoPhantom(Front(asgs));
      var at := Find(pre, Id(e));
      if at < |pre| {
        IdsArePairs(pre[at], e);
      }
    }
  }

  /** For plain inputs the merged text means the last value of every pair, and
      merging it again, alone or with nothing else, gives the same bytes. */
  lemma PlainInputsRoundTrip(inputs: seq<string>)
    requires Plain(AllLines(inputs))
    ensures Meaning(MergedText(inputs)) == Merged(inputs)
    ensures MergedText([MergedText(inputs)]) == MergedText(inputs)
  {
    var ls := AllLines(inputs);
    forall i | 0 <= i < |ls| ensures PlainLine(Parse(ls)[i]) {
      PlainLineParts(ls[i], SUBSEP[0]);
      PlainLineParts(ls[i], SENTINEL[0]);
      if Classify(ls[i]).Assign? {
        PlainLineIsNoPhantom(ls[i]);
      }
    }
    PlainAssignments(Parse(ls));
    MergeKeepsNoPhantom(Assignments(Parse(ls)));
    RereadGivesTheMergedList(inputs);
    MergeIsIdempotent(inputs);
  }

  /** A carriage return beside `=` in a bracketed line defeats the header test on
      the way in and is gone on the way out: the key turns into a table. */
  lemma PhantomHeaderWitness()
    ensures Merged(["[a\r=b]"]) == [Entry("", "[a", "b]")]
    ensures Meaning(MergedText(["[a\r=b]"])) != Merged(["[a\r=b]"])
  {
    var raw, e := "[a\r=b]", Entry("", "[a", "b]");
    assert Front([e]) == [] && Merge([e]) == [] + [e];
    assert Phantom([e][0]);
    assert !NoPhantom([e]);
    hide *;
    WitnessMeaning();
    MergedOfOne(raw);
    RereadGivesTheMergedList([raw]);
  }

  /** So the re-reading rule is not idle: with a lone phantom nothing is left when
      the merged text is merged again. */
  lemma LonePhantomVanishes(inputs: seq<string>)
    requires |Merged(inputs)| == 1 && !NoPhantom(Merged(inputs))
    ensures MergedText([MergedText(inputs)]) == "" && MergedText(inputs) != ""
  {
    var es, text := Merged(inputs), MergedText(inputs);
    MergedTextMeaning(inputs);
    MergedIsProper(inputs);
    PrintedLinesFit(es);
    HeaderIsLost(es, PrintedLines(es));
    MergedOfOne(text);
    hide *;
    hide Meaning, Merged, MergedText, NoPhantom;
    assert Meaning(text) == [];
    NothingPrintsNothing(text);
    SomethingPrints(inputs);
  }

  lemma NothingPrintsNothing(text: string)
    requires Meaning(text) == [] && Merged([text]) == Merge(Meaning(text))
    ensures MergedText([text]) == ""
  {
    hide Meaning, Merged;
    assert Merge([]) == [] && Print([]) == [] && Join([]) == "";
  }

  lemma SomethingPrints(inputs: seq<string>)
    requires Merged(inputs) != []
    ensures MergedText(inputs) != ""
  {
    var es := Merged(inputs);
    hide Merged;
    var n := |Print(es)|;
    assert n >= 1 && Print(es)[n - 1] == EntryLine(Last(es)) && EntryLine(Last(es)) != "";
    hide Print;
    JoinIsLong(Print(es));
  }

  lemma {:induction false} JoinIsLong(ls: seq<string>)
    requires ls != []
    ensures |Join(ls)| >= |ls[|ls| - 1]|
  {
    if |ls| > 1 {
      JoinIsLong(ls[1..]);
    }
  }

  lemma WitnessMeaning()
    ensures Meaning("[a\r=b]") == [Entry("", "[a", "b]")]
  {
    var raw := "[a\r=b]";
    WitnessLineReads();
    assert IndexOf(raw, '\n') < 0;
    assert Lines(raw) == [raw] && Front([raw]) == [];
    WitnessOfOne(raw, Classify(raw));
  }

  lemma WitnessOfOne(raw: string, p: Line)
    requires Classify(raw) == p && p.Assign?
    ensures Assignments(Parse([raw])) == [Entry("", p.key, p.value)]
  {
    assert Parse([raw]) == [p] && Front([p]) == [];
  }

  lemma WitnessLineReads()
    ensures Classify("[a\r=b]") == Assign("[a", "b]", "[a\r=b]")
  {
    var raw := "[a\r=b]";
    assert raw == "[a\r" + ['='] + "b]";
    assert raw[..3] == "[a\r" && raw[4..] == "b]";
    WitnessIsNoHeader(raw);
    hide TrimBlanks, IndexOf, IsHeader;
    IndexOfAt("[a\r", '=', "b]");
    WitnessTrims();
  }

  lemma WitnessIsNoHeader(raw: string)
    requires |raw| > 2 && raw[2] == '\r'
    ensures !IsHeader(raw)
  {
    assert raw[2] in raw && IsTerminator(raw[2]);
  }

  lemma WitnessTrims()
    ensures TrimBlanks("[a\r=b]") == "[a\r=b]" && TrimBlanks("[a\r") == "[a" && TrimBlanks("b]") == "b]"
  {
    var raw := "[a\r=b]";
    hide Trim;
    TrimCore("", raw, "", IsBlank);
    assert "" + raw + "" == raw;
    TrimCore("", "[a", "\r", IsBlank);
    assert "" + "[a" + "\r" == "[a\r";
    TrimCore("", "b]", "", IsBlank);
    assert "" + "b]" + "" == "b]";
  }

  // ----- one file or many -----

  lemma {:induction false} JoinSnoc(xs: seq<string>)
    requires |xs| > 1
    ensures Join(xs) == Join(Front(xs)) + "\n" + Last(xs)
  {
    if |xs| > 2 {
      JoinSnoc(xs[1..]);
      assert Front(xs)[1..] == Front(xs[1..]);
      assert Join(xs) == xs[0] + "\n" + (Join(Front(xs[1..])) + "\n" + Last(xs));
    }
  }

  lemma {:induction false} JoinedLines(xs: seq<string>)
    requires xs != []
    ensures Lines(Join(xs)) == AllLines(xs)
  {
    if |xs| == 1 {
      assert AllLines(xs) == [] + Lines(xs[0]);
    } else {
      JoinSnoc(xs);
      LinesAppend(Join(Front(xs)), Last(xs));
      JoinedLines(Front(xs));
    }
  }

  lemma LinesOfConcatenation(xs: seq<string>)
    ensures Assignments(Parse(AllLines([Join(xs)]))) == Assignments(Parse(AllLines(xs)))
  {
    MergedOfOne(Join(xs));
    if xs == [] {
      BlankLineMeansNothing();
    } else {
      JoinedLines(xs);
    }
  }

  lemma BlankLineMeansNothing()
    ensures Meaning("") == []
  {
    assert Lines("") == [""] && Parse([""]) == [Ignored];
    assert Front([Ignored]) == [];
  }

  /** Merging a list of files is merging their newline-joined concatenation: the
      table in force at the end of one file governs the next. */
  lemma MergeOfConcatenation(xs: seq<string>)
    ensures MergedText([Join(xs)]) == MergedText(xs)
  {
    LinesOfConcatenation(xs);
    SameMeaningSameText([Join(xs)], xs);
  }
}
