/** The fleet user's authorized_keys: the install
    (fleet/src/commands/enroll-wiring.ts), the removal
    (fleet/src/commands/retire.ts) and the check that judges it
    (fleet/src/reconcile/discover.ts). A file is its non-empty lines. */
module AuthorizedKeys {
  import opened Text

  const OPTIONS := "restrict,port-forwarding,"
  const PERMIT := "permitlisten="
  const LOCAL := "127.0.0.1:"
  const KIND := "ssh-ed25519"

  function Needle(port: nat): string {
    PERMIT + "\"" + (LOCAL + Decimal(port)) + "\""
  }

  /** `authorizedKeysLine`. */
  function KeyLine(port: nat, pubkey: string): string {
    OPTIONS + Needle(port) + " " + pubkey
  }

  function Nth(fs: seq<string>, i: nat): string {
    if i < |fs| then fs[i] else ""
  }

  /** What enrolment accepts: one trimmed line of the one key type, with any comment. */
  predicate IsPubkey(pubkey: string) {
    StartsWith(pubkey, KIND + " ") && Trimmed(pubkey, IsJsSpace) && '\n' !in pubkey
  }

  /** The key material: the second field. */
  function Material(pubkey: string): string {
    Nth(Fields(pubkey), 1)
  }

  // ----- install and remove -----

  /** `/permitlisten="([^"]+)"/`: the restriction of a line. */
  function Permit(line: string): string {
    PermitFrom(line, 0)
  }

  function PermitFrom(line: string, i: nat): string
    decreases |line| - i
  {
    if i >= |line| then ""
    else
      var open := i + |PERMIT| + 1;
      if OccursAt(line, PERMIT + "\"", i) && IndexOf(line[open..], '"') > 0 then
        line[open..][..IndexOf(line[open..], '"')]
      else PermitFrom(line, i + 1)
  }

  /** `supersededAuthorizedKeysLine`. */
  predicate Superseded(existing: string, line: string) {
    var key := Nth(Fields(line), 2);
    var permit := Permit(line);
    || (key != "" && Contains(existing, key))
    || (permit != "" && Contains(existing, PERMIT + "\"" + permit + "\""))
  }

  function Filter(ls: seq<string>, drop: string -> bool): seq<string> {
    if ls == [] then []
    else if drop(ls[0]) then Filter(ls[1..], drop) else [ls[0]] + Filter(ls[1..], drop)
  }

  /** `installVpsAuthorizedKey`. */
  function Install(file: seq<string>, line: string): seq<string> {
    Filter(file, l => l == "" || Superseded(l, line)) + [line]
  }

  /** `removeAuthorizedKeysLines` takes the last field of what it is given. */
  function StoredMaterial(pubkey: string): string {
    var fs := Fields(Trim(pubkey, IsJsSpace));
    if pubkey == "" then "" else fs[|fs| - 1]
  }

  predicate Belongs(l: string, port: nat, material: string) {
    Contains(l, Needle(port)) || (material != "" && Contains(l, material))
  }

  function Remove(file: seq<string>, port: nat, pubkey: string): seq<string> {
    Filter(file, l => l == "" || Belongs(l, port, StoredMaterial(pubkey)))
  }

  /** The removal's loop; `removed` counts the dropped lines that are not empty. */
  method RemoveAuthorizedKeysLines(content: seq<string>, port: nat, pubkey: string)
    returns (kept: seq<string>, removed: nat)
    ensures kept == Remove(content, port, pubkey)
    ensures |kept| + removed == |Filter(content, l => l == "")|
  {
    var material := StoredMaterial(pubkey);
    kept, removed := [], 0;
    for i := 0 to |content|
      invariant kept + Remove(content[i..], port, pubkey) == Remove(content, port, pubkey)
      invariant |kept| + removed + |Filter(content[i..], l => l == "")| == |Filter(content, l => l == "")|
    {
      hide Fields, Contains, Trim;
      if content[i] == "" {
        continue;
      }
      if Belongs(content[i], port, material) {
        removed := removed + 1;
        continue;
      }
      kept := kept + [content[i]];
    }
  }

  // ----- what a removal goes by -----

  lemma {:induction false} LeadingTrim(x: string, m: string)
    requires m != "" && !IsJsSpace(m[0]) && (x == "" || IsJsSpace(x[|x| - 1]))
    ensures var y := TrimLeft(x, IsJsSpace);
            && TrimLeft(x + m, IsJsSpace) == y + m
            && (y == "" || IsJsSpace(y[|y| - 1])) && |y| <= |x|
  {
    hide IsJsSpace;
    if x == "" {
      assert x + m == m;
    } else {
      assert (x + m)[0] == x[0] && (x + m)[1..] == x[1..] + m;
      if IsJsSpace(x[0]) {
        LeadingTrim(x[1..], m);
      }
    }
  }

  /** A word behind a blank is the last field. */
  lemma {:induction false} LastField(x: string, m: string)
    requires m != "" && NoSpace(m) && (x == "" || IsJsSpace(x[|x| - 1]))
    ensures var fs := Fields(x + m); fs[|fs| - 1] == m
    decreases |x|
  {
    var s := x + m;
    assert m[0] in m;
    if x == "" {
      assert s == m && m + "" == m;
      WordLengthAt(m, "");
    } else {
      var n := WordLength(s);
      assert s[|x| - 1] == x[|x| - 1];
      assert n < |x|;
      assert s[n + 1..] == x[n + 1..] + m;
      hide NoSpace, IsJsSpace;
      LeadingTrim(x[n + 1..], m);
      LastField(TrimLeft(x[n + 1..], IsJsSpace), m);
    }
  }

  /** Of a stored text the removal takes the last word: the key itself if that is what is
      stored. */
  lemma StoredIsLastWord(x: string, m: string, blanks: string)
    requires m != "" && NoSpace(m) && (x == "" || IsJsSpace(x[|x| - 1])) && AllIn(blanks, IsJsSpace)
    ensures StoredMaterial(x + m + blanks) == m
  {
    assert m[0] in m && m[|m| - 1] in m;
    var y := TrimLeft(x, IsJsSpace);
    var lead := TrimLeftSplits(x, IsJsSpace);
    hide Fields, NoSpace, IsJsSpace, TrimLeft;
    LeadingTrim(x, m);
    assert x + m + blanks == lead + (y + m) + blanks;
    TrimmedStart(x, m);
    assert (y + m)[|y + m| - 1] == m[|m| - 1];
    TrimCore(lead, y + m, blanks, IsJsSpace);
    LastField(y, m);
  }

  lemma TrimmedStart(x: string, m: string)
    requires m != "" && !IsJsSpace(m[0])
    ensures var y := TrimLeft(x, IsJsSpace); !IsJsSpace((y + m)[0])
  {
    var _ := TrimLeftSplits(x, IsJsSpace);
    hide IsJsSpace;
  }

  ghost predicate Names(l: string, port: nat, m: string) {
    Contains(l, Needle(port)) || Contains(l, m)
  }

  /** After a removal no line names the port or holds the stored key, and every other line
      is still there, in order: also when the box had moved to another port. */
  lemma RemovalGoesByPortOrKey(file: seq<string>, port: nat, x: string, m: string, blanks: string)
    requires m != "" && NoSpace(m) && (x == "" || IsJsSpace(x[|x| - 1])) && AllIn(blanks, IsJsSpace)
    ensures var kept := Remove(file, port, x + m + blanks);
            && (forall l :: l in kept ==> l != "" && !Names(l, port, m))
            && kept == Filter(file, l => l == "" || Names(l, port, m))
            && forall l :: l in file && l != "" && !Names(l, port, m) ==> l in kept
  {
    var stored := x + m + blanks;
    StoredIsLastWord(x, m, blanks);
    hide StoredMaterial, Contains, NoSpace, IsJsSpace;
    SameFilter(file, l => l == "" || Belongs(l, port, StoredMaterial(stored)), l => l == "" || Names(l, port, m));
    FilterIsExact(file, l => l == "" || Names(l, port, m));
  }

  lemma {:induction false} FilterIsExact(ls: seq<string>, drop: string -> bool)
    ensures forall l :: l in Filter(ls, drop) <==> l in ls && !drop(l)
  {
    if ls != [] {
      FilterIsExact(ls[1..], drop);
      assert ls == [ls[0]] + ls[1..];
    }
  }

  /** Without a stored key only the port counts. */
  lemma RemovalByPortAlone(file: seq<string>, port: nat)
    ensures Remove(file, port, "") == Filter(file, l => l == "" || Contains(l, Needle(port)))
  {
    hide Contains;
    SameFilter(file, l => l == "" || Belongs(l, port, StoredMaterial("")), l => l == "" || Contains(l, Needle(port)));
  }

  // ----- what a line of ours contains -----

  /** A text with one quoted part: what is quoted in it can only match as a whole. */
  lemma QuotedMatch(u: string, b: string, m: string, a: string, i: nat)
    requires '"' !in u && '"' !in b && '"' !in m && '"' !in a
    requires OccursAt(u + "\"" + b + "\"", m + "\"" + a + "\"", i)
    ensures a == b
  {
    var line, needle := u + "\"" + b + "\"", m + "\"" + a + "\"";
    var x, y := |u|, |u| + 1 + |b|;
    forall t: nat | t < |line| && t != x && t != y ensures line[t] != '"' {
      if t < x {
        assert line[t] == u[t];
      } else {
        assert line[t] == b[t - x - 1];
      }
    }
    assert line[i..i + |needle|] == needle;
    assert line[i + |m|] == needle[|m|] == '"';
    assert line[i + |m| + 1 + |a|] == needle[|m| + 1 + |a|] == '"';
    assert i + |m| == x && |a| == |b|;
    assert forall t :: 0 <= t < |a| ==> a[t] == needle[|m| + 1 + t] == line[i + |m| + 1 + t] == b[t];
  }

  lemma OccursOnLeft(head: string, tail: string, needle: string, i: nat)
    requires i + |needle| <= |head|
    ensures OccursAt(head + tail, needle, i) <==> OccursAt(head, needle, i)
  {
    assert (head + tail)[i..i + |needle|] == head[i..i + |needle|];
  }

  lemma OccursOnRight(head: string, tail: string, needle: string, i: nat)
    requires i + |needle| <= |tail|
    ensures OccursAt(head + tail, needle, |head| + i) <==> OccursAt(tail, needle, i)
  {
    assert (head + tail)[|head| + i..|head| + i + |needle|] == tail[i..i + |needle|];
  }

  lemma Found(s: string, needle: string, i: nat)
    requires i <= |s| && OccursAt(s, needle, i)
    ensures Contains(s, needle)
  {
  }

  lemma NotAcrossBlank(s: string, needle: string, i: nat, x: nat)
    requires ' ' !in needle && OccursAt(s, needle, i) && x < |s| && s[x] == ' '
    ensures !(i <= x < i + |needle|)
  {
    forall t | i <= t < i + |needle| ensures s[t] != ' ' {
      assert s[t] == s[i..i + |needle|][t - i] == needle[t - i] && needle[t - i] in needle;
    }
  }

  /** What holds no blank is found on one side of a blank or on the other. */
  lemma FoundOnOneSide(head: string, tail: string, needle: string)
    requires needle != "" && ' ' !in needle
    ensures Contains(head + " " + tail, needle) <==> Contains(head, needle) || Contains(tail, needle)
  {
    var s := head + " " + tail;
    assert s == head + (" " + tail) && s == (head + " ") + tail;
    if Contains(s, needle) {
      var i: nat :| i <= |s| && OccursAt(s, needle, i);
      hide Contains;
      NotAcrossBlank(s, needle, i, |head|);
      if i + |needle| <= |head| {
        OccursOnLeft(head, " " + tail, needle, i);
        Found(head, needle, i);
      } else {
        OccursOnRight(head + " ", tail, needle, i - |head| - 1);
        Found(tail, needle, i - |head| - 1);
      }
    }
    if Contains(head, needle) || Contains(tail, needle) {
      FoundInTheWhole(head, tail, needle);
    }
  }

  lemma FoundInTheWhole(head: string, tail: string, needle: string)
    requires needle != "" && (Contains(head, needle) || Contains(tail, needle))
    ensures Contains(head + " " + tail, needle)
  {
    var s := head + " " + tail;
    assert s == head + (" " + tail) && s == (head + " ") + tail;
    if Contains(head, needle) {
      var i: nat :| i <= |head| && OccursAt(head, needle, i);
      hide Contains;
      OccursOnLeft(head, " " + tail, needle, i);
      Found(s, needle, i);
    } else {
      var i: nat :| i <= |tail| && OccursAt(tail, needle, i);
      hide Contains;
      OccursOnRight(head + " ", tail, needle, i);
      Found(s, needle, |head| + 1 + i);
    }
  }

  lemma LineParts(port: nat)
    ensures OPTIONS + Needle(port) == (OPTIONS + PERMIT) + "\"" + (LOCAL + Decimal(port)) + "\""
    ensures '"' !in OPTIONS + PERMIT && '"' !in LOCAL + Decimal(port) && '"' !in PERMIT
  {
    hide Decimal;
    assert '"' !in Decimal(port);
  }

  lemma NeedleIsOneWord(port: nat)
    ensures Needle(port) != "" && ' ' !in Needle(port)
  {
    hide Decimal;
    assert ' ' !in PERMIT && ' ' !in LOCAL && ' ' !in Decimal(port);
    forall c | c in Needle(port) ensures c != ' ' {
      assert c in PERMIT || c == '"' || c in LOCAL || c in Decimal(port);
    }
  }

  lemma LineNamesItsPort(port: nat, pubkey: string)
    ensures Contains(KeyLine(port, pubkey), Needle(port))
  {
    var line := KeyLine(port, pubkey);
    hide Needle;
    assert line == OPTIONS + Needle(port) + (" " + pubkey);
    assert line[|OPTIONS|..|OPTIONS| + |Needle(port)|] == Needle(port);
    Found(line, Needle(port), |OPTIONS|);
  }

  lemma OptionsNameOnePort(p: nat, q: nat)
    ensures Contains(OPTIONS + Needle(q), Needle(p)) ==> p == q
  {
    LineParts(q);
    LineParts(p);
    var a, b := LOCAL + Decimal(p), LOCAL + Decimal(q);
    if Contains(OPTIONS + Needle(q), Needle(p)) {
      hide Decimal;
      var i: nat :| i <= |OPTIONS + Needle(q)| && OccursAt(OPTIONS + Needle(q), Needle(p), i);
      QuotedMatch(OPTIONS + PERMIT, b, PERMIT, a, i);
      assert a[|LOCAL|..] == Decimal(p) && b[|LOCAL|..] == Decimal(q);
      DecimalIsInjective(p, q);
    }
  }

  /** A line names its own port, and another exactly if its key's comment does. */
  lemma LineNamesPort(p: nat, q: nat, pubkey: string)
    ensures Contains(KeyLine(q, pubkey), Needle(p)) <==> p == q || Contains(pubkey, Needle(p))
  {
    LineNamesItsPort(q, pubkey);
    OptionsNameOnePort(p, q);
    NeedleIsOneWord(p);
    hide Contains, Needle;
    FoundOnOneSide(OPTIONS + Needle(q), pubkey, Needle(p));
  }

  lemma PubkeyRest(pubkey: string) returns (rest: string)
    requires IsPubkey(pubkey)
    ensures pubkey == KIND + " " + rest && rest != "" && !IsJsSpace(rest[|rest| - 1])
  {
    rest := pubkey[|KIND| + 1..];
    assert pubkey == KIND + " " + rest;
    assert pubkey[|KIND|] == ' ';
    assert rest != "";
  }

  lemma WordAfterBlanks(rest: string)
    requires rest != "" && !IsJsSpace(rest[|rest| - 1])
    ensures TrimLeft(rest, IsJsSpace) != "" && !IsJsSpace(TrimLeft(rest, IsJsSpace)[0])
  {
    hide TrimLeft;
    var a := TrimLeftSplits(rest, IsJsSpace);
    assert TrimLeft(rest, IsJsSpace) == "" ==> rest == a;
  }

  lemma PubkeyFields(pubkey: string)
    requires IsPubkey(pubkey)
    ensures |Fields(pubkey)| >= 2 && Fields(pubkey)[0] == KIND && Material(pubkey) != ""
    ensures pubkey != "" && !IsJsSpace(pubkey[0]) && TrimLeft(pubkey, IsJsSpace) == pubkey
  {
    assert NoSpace(KIND) && !IsJsSpace(KIND[0]);
    hide IsPubkey;
    var rest := PubkeyRest(pubkey);
    FieldsOfTwo(KIND, rest);
  }

  lemma FieldsOfTwo(kind: string, rest: string)
    requires kind != "" && NoSpace(kind) && !IsJsSpace(kind[0]) && rest != "" && !IsJsSpace(rest[|rest| - 1])
    ensures var s := kind + " " + rest;
            && |Fields(s)| >= 2 && Fields(s)[0] == kind && Fields(s)[1] != ""
            && !IsJsSpace(s[0]) && TrimLeft(s, IsJsSpace) == s
  {
    var s := kind + " " + rest;
    assert s[0] == kind[0];
    hide Fields, NoSpace, IsJsSpace;
    WordAfterBlanks(rest);
    FirstField(kind, rest);
    FirstFieldIsWord(TrimLeft(rest, IsJsSpace));
  }

  lemma FirstFieldIsWord(s: string)
    requires s != "" && !IsJsSpace(s[0])
    ensures Fields(s)[0] != ""
  {
  }

  lemma KeyLineFields(port: nat, pubkey: string)
    requires IsPubkey(pubkey)
    ensures Fields(KeyLine(port, pubkey)) == [OPTIONS + Needle(port)] + Fields(pubkey)
    ensures Trim(KeyLine(port, pubkey), IsJsSpace) == KeyLine(port, pubkey)
  {
    PubkeyFields(pubkey);
    OptionsAreOneWord(port);
    assert Trimmed(pubkey, IsJsSpace);
    hide Fields, TrimLeft, Needle, IsPubkey;
    FirstField(OPTIONS + Needle(port), pubkey);
    assert OPTIONS[0] == 'r';
    TrimmedLine(OPTIONS + Needle(port), pubkey);
  }

  lemma TrimmedLine(word: string, tail: string)
    requires word != "" && !IsJsSpace(word[0]) && tail != "" && Trimmed(tail, IsJsSpace)
    ensures Trim(word + " " + tail, IsJsSpace) == word + " " + tail
  {
    var line := word + " " + tail;
    assert line[0] == word[0] && line[|line| - 1] == tail[|tail| - 1];
    assert "" + line + "" == line && AllIn("", IsJsSpace);
    hide Trim;
    TrimCore("", line, "", IsJsSpace);
  }

  lemma OptionsAreOneWord(port: nat)
    ensures NoSpace(OPTIONS + Needle(port))
  {
    assert NoSpace(OPTIONS) && NoSpace(PERMIT) && NoSpace(LOCAL);
    assert forall c :: c in Decimal(port) ==> !IsJsSpace(c);
    hide Decimal;
    forall c | c in OPTIONS + Needle(port) ensures !IsJsSpace(c) {
      assert c in OPTIONS || c in PERMIT || c in LOCAL || c in Decimal(port) || c == '"';
    }
  }

  /** The restriction found in a line of ours is its own. */
  lemma PermitOfLine(port: nat, pubkey: string)
    ensures Permit(KeyLine(port, pubkey)) == LOCAL + Decimal(port)
  {
    LineParts(port);
    var b, v := LOCAL + Decimal(port), " " + pubkey;
    assert KeyLine(port, pubkey) == (OPTIONS + PERMIT) + "\"" + b + "\"" + v;
    hide Decimal, KeyLine;
    SkipToPermit(b, v, 0);
  }

  lemma NoQuoteNoPermit(line: string, i: nat)
    requires i + |PERMIT| < |line| && line[i + |PERMIT|] != '"'
    ensures !OccursAt(line, PERMIT + "\"", i)
  {
    assert line[i..i + |PERMIT| + 1][|PERMIT|] == line[i + |PERMIT|];
    assert (PERMIT + "\"")[|PERMIT|] == '"';
  }

  lemma {:induction false} SkipToPermit(b: string, v: string, i: nat)
    requires '"' !in b && b != "" && i <= |OPTIONS|
    ensures PermitFrom((OPTIONS + PERMIT) + "\"" + b + "\"" + v, i) == b
    decreases |OPTIONS| - i
  {
    var u := OPTIONS + PERMIT;
    var line := u + "\"" + b + "\"" + v;
    if i < |OPTIONS| {
      assert line[i + |PERMIT|] == u[i + |PERMIT|] && u[i + |PERMIT|] in u && '"' !in u;
      NoQuoteNoPermit(line, i);
      SkipToPermit(b, v, i + 1);
    } else {
      assert line[i..i + |PERMIT| + 1] == PERMIT + "\"";
      var tail := b + "\"" + v;
      assert line[i + |PERMIT| + 1..] == tail;
      IndexOfAt(b, '"', v);
      assert tail[..|b|] == b;
    }
  }

  lemma SupersededMeans(existing: string, port: nat, pubkey: string)
    requires IsPubkey(pubkey)
    ensures Superseded(existing, KeyLine(port, pubkey)) <==> Belongs(existing, port, Material(pubkey))
  {
    PubkeyFields(pubkey);
    KeyLineFields(port, pubkey);
    PermitOfLine(port, pubkey);
    hide Fields, Permit, KeyLine, Contains, IsPubkey, Decimal;
    assert Nth([OPTIONS + Needle(port)] + Fields(pubkey), 2) == Material(pubkey);
  }

  // ----- the writer establishes the checker -----

  /** `keyMaterial`: the field after the first one that starts with `ssh-`. */
  function KeyMaterial(line: string): string {
    AfterKind(Fields(Trim(line, IsJsSpace)))
  }

  function AfterKind(fs: seq<string>): string {
    if |fs| < 2 then "" else if StartsWith(fs[0], "ssh-") then fs[1] else AfterKind(fs[1..])
  }

  /** `authorizedKeysCoherent`. */
  predicate Coherent(lines: seq<string>, port: nat, pubkey: string) {
    var ours := Filter(lines, l => !Contains(l, Needle(port)));
    var want := KeyMaterial(pubkey);
    |ours| == 1 && want != "" && KeyMaterial(ours[0]) == want
  }

  lemma AfterKindOf(a: string, fs: seq<string>)
    requires |fs| >= 2 && StartsWith(fs[0], "ssh-") && !StartsWith(a, "ssh-")
    ensures AfterKind(fs) == fs[1] && AfterKind([a] + fs) == fs[1]
  {
    hide StartsWith;
    assert ([a] + fs)[1..] == fs;
  }

  lemma KindFacts(port: nat)
    ensures StartsWith(KIND, "ssh-") && !StartsWith(OPTIONS + Needle(port), "ssh-")
  {
    hide Needle;
    assert (OPTIONS + Needle(port))[0] == 'r';
  }

  lemma PubkeyIsTrimmed(pubkey: string)
    requires IsPubkey(pubkey)
    ensures Trim(pubkey, IsJsSpace) == pubkey
  {
    assert "" + pubkey + "" == pubkey && AllIn("", IsJsSpace) && Trimmed(pubkey, IsJsSpace);
    hide Trim;
    TrimCore("", pubkey, "", IsJsSpace);
  }

  lemma BothNameTheKey(port: nat, pubkey: string)
    requires IsPubkey(pubkey)
    ensures KeyMaterial(KeyLine(port, pubkey)) == KeyMaterial(pubkey) == Material(pubkey) != ""
  {
    hide Fields, Trim, KeyLine, StartsWith, Needle, AfterKind, IsPubkey;
    PubkeyFields(pubkey);
    PubkeyIsTrimmed(pubkey);
    KeyLineFields(port, pubkey);
    KindFacts(port);
    AfterKindOf(OPTIONS + Needle(port), Fields(pubkey));
  }

  lemma {:induction false} FilterAppend(a: seq<string>, b: seq<string>, drop: string -> bool)
    ensures Filter(a + b, drop) == Filter(a, drop) + Filter(b, drop)
  {
    if a == [] {
      assert a + b == b;
    } else {
      assert (a + b)[1..] == a[1..] + b;
      FilterAppend(a[1..], b, drop);
    }
  }

  lemma {:induction false} FilterKeepsAll(ls: seq<string>, drop: string -> bool)
    requires forall i :: 0 <= i < |ls| ==> !drop(ls[i])
    ensures Filter(ls, drop) == ls
  {
    if ls != [] {
      FilterKeepsAll(ls[1..], drop);
    }
  }

  lemma {:induction false} FilterTwice(ls: seq<string>, drop: string -> bool, keepOut: string -> bool)
    requires forall l :: drop(l) || keepOut(l)
    ensures Filter(Filter(ls, drop), keepOut) == []
    ensures forall i :: 0 <= i < |Filter(ls, drop)| ==> Filter(ls, drop)[i] in ls
  {
    if ls != [] {
      FilterTwice(ls[1..], drop, keepOut);
    }
  }

  /** The check means what it says: exactly one line names the port, and it carries the
      key. */
  lemma CoherentExactly(lines: seq<string>, port: nat, pubkey: string)
    ensures Coherent(lines, port, pubkey) <==>
              && KeyMaterial(pubkey) != ""
              && exists i :: 0 <= i < |lines| && OnlyOne(lines, i, port) && KeyMaterial(lines[i]) == KeyMaterial(pubkey)
  {
    var drop := (l: string) => !Contains(l, Needle(port));
    hide KeyMaterial, Contains;
    OneLeft(lines, drop);
    if Coherent(lines, port, pubkey) {
      var i :| 0 <= i < |lines| && Filter(lines, drop) == [lines[i]] && OnlyKept(lines, i, drop);
      assert OnlyOne(lines, i, port);
    }
    forall i | 0 <= i < |lines| && OnlyOne(lines, i, port) ensures Filter(lines, drop) == [lines[i]] {
      assert OnlyKept(lines, i, drop);
    }
  }

  ghost predicate OnlyOne(lines: seq<string>, i: int, port: nat) {
    0 <= i < |lines| && forall j :: 0 <= j < |lines| ==> (Contains(lines[j], Needle(port)) <==> j == i)
  }

  ghost predicate OnlyKept(ls: seq<string>, i: int, drop: string -> bool) {
    0 <= i < |ls| && forall j :: 0 <= j < |ls| ==> (!drop(ls[j]) <==> j == i)
  }

  lemma {:induction false} OneLeft(ls: seq<string>, drop: string -> bool)
    ensures |Filter(ls, drop)| == 1 ==>
              exists i :: 0 <= i < |ls| && Filter(ls, drop) == [ls[i]] && OnlyKept(ls, i, drop)
    ensures forall i :: OnlyKept(ls, i, drop) ==> Filter(ls, drop) == [ls[i]]
    ensures (forall j :: 0 <= j < |ls| ==> drop(ls[j])) <==> Filter(ls, drop) == []
  {
    if ls != [] {
      var rest := ls[1..];
      OneLeft(rest, drop);
      if drop(ls[0]) {
        if |Filter(rest, drop)| == 1 {
          var i :| 0 <= i < |rest| && Filter(rest, drop) == [rest[i]] && OnlyKept(rest, i, drop);
          assert OnlyKept(ls, i + 1, drop);
        }
        forall i | OnlyKept(ls, i, drop) ensures Filter(ls, drop) == [ls[i]] {
          assert OnlyKept(rest, i - 1, drop);
        }
      } else {
        if Filter(rest, drop) == [] {
          assert OnlyKept(ls, 0, drop);
        }
        forall i | OnlyKept(ls, i, drop) ensures Filter(ls, drop) == [ls[i]] {
          assert i == 0;
          assert forall j :: 0 <= j < |rest| ==> rest[j] == ls[j + 1];
        }
      }
    }
  }

  /** Whatever the file held before, right after an install the check passes for
      that port and key; so it does after a key was replaced by another. */
  lemma InstallEstablishesCheck(prior: string, port: nat, pubkey: string)
    requires IsPubkey(pubkey)
    ensures Coherent(Lines(Unlines(Install(Lines(prior), KeyLine(port, pubkey)))), port, pubkey)
  {
    var line := KeyLine(port, pubkey);
    var file := Lines(prior);
    var drop := (l: string) => l == "" || Superseded(l, line);
    var out := (l: string) => !Contains(l, Needle(port));
    var kept := Filter(file, drop);
    forall l: string ensures drop(l) || out(l) {
      SupersededMeans(l, port, pubkey);
    }
    BothNameTheKey(port, pubkey);
    LineNamesItsPort(port, pubkey);
    EmptyNamesNoPort(port);
    hide KeyMaterial, Contains, Superseded, Lines, KeyLine, Unlines;
    FilterTwice(file, drop, out);
    InstalledLines(prior, port, pubkey);
    FilterAppend(kept + [line], [""], out);
    FilterAppend(kept, [line], out);
    OneKept(line, out);
    OneDropped("", out);
  }

  lemma OneKept(l: string, drop: string -> bool)
    requires !drop(l)
    ensures Filter([l], drop) == [l]
  {
  }

  lemma OneDropped(l: string, drop: string -> bool)
    requires drop(l)
    ensures Filter([l], drop) == []
  {
  }

  lemma EmptyNamesNoPort(port: nat)
    ensures !Contains("", Needle(port))
  {
  }

  lemma InstalledLines(prior: string, port: nat, pubkey: string)
    requires IsPubkey(pubkey)
    ensures var file := Install(Lines(prior), KeyLine(port, pubkey)); Lines(Unlines(file)) == file + [""]
  {
    var line := KeyLine(port, pubkey);
    var drop := (l: string) => l == "" || Superseded(l, line);
    LinesHaveNoNewlines(prior);
    KeyLineHasNoNewline(port, pubkey);
    hide Lines, Superseded, KeyLine, Unlines;
    FilterTwice(Lines(prior), drop, l => true);
    var file := Install(Lines(prior), line);
    forall i | 0 <= i < |file| ensures '\n' !in file[i] {
      if i < |file| - 1 {
        assert file[i] in Lines(prior);
      }
    }
    LinesOfUnlines(file);
  }

  lemma KeyLineHasNoNewline(port: nat, pubkey: string)
    requires '\n' !in pubkey
    ensures '\n' !in KeyLine(port, pubkey)
  {
    hide Decimal;
    assert '\n' !in Decimal(port);
    assert forall c :: c in KeyLine(port, pubkey) ==>
        c in OPTIONS || c in PERMIT || c == '"' || c in LOCAL || c in Decimal(port) || c == ' ' || c in pubkey;
  }

  // ----- every run of installs and removals -----

  datatype Event = Enrol(port: nat, pubkey: string) | Retire(port: nat, stored: string)

  function KeyOf(e: Event): string {
    match e
    case Enrol(_, pubkey) => Material(pubkey)
    case Retire(_, stored) => StoredMaterial(stored)
  }

  function Applied(file: seq<string>, e: Event): seq<string> {
    match e
    case Enrol(port, pubkey) => Install(file, KeyLine(port, pubkey))
    case Retire(port, stored) => Remove(file, port, stored)
  }

  function RunFile(file: seq<string>, es: seq<Event>): seq<string> {
    if es == [] then file else Applied(RunFile(file, es[..|es| - 1]), es[|es| - 1])
  }

  /** The enrolled boxes, oldest install first. */
  function Live(es: seq<Event>): seq<Event> {
    if es == [] then []
    else
      var e := es[|es| - 1];
      Without(Live(es[..|es| - 1]), e.port) + (if e.Enrol? then [e] else [])
  }

  function Without(live: seq<Event>, port: nat): seq<Event> {
    if live == [] then []
    else (if live[0].port == port then [] else [live[0]]) + Without(live[1..], port)
  }

  function LineOf(e: Event): string {
    if e.Enrol? then KeyLine(e.port, e.pubkey) else ""
  }

  function LiveLines(live: seq<Event>): seq<string> {
    if live == [] then [] else [LineOf(live[0])] + LiveLines(live[1..])
  }

  ghost predicate AllPubkeys(es: seq<Event>) {
    forall e :: e in es && e.Enrol? ==> IsPubkey(e.pubkey)
  }

  /** The event takes no live line of another port for its own. */
  ghost predicate Spares(e: Event, live: seq<Event>) {
    forall l :: l in live && l.port != e.port ==> !Belongs(LineOf(l), e.port, KeyOf(e))
  }

  /** No line of an install carries the port or the key of an event on another port. */
  ghost predicate Separate(es: seq<Event>) {
    forall d, e :: d in es && e in es && e.Enrol? && d.port != e.port ==> !Belongs(LineOf(e), d.port, KeyOf(d))
  }

  /** Lines that are none of ours. */
  ghost predicate Foreign(file: seq<string>, es: seq<Event>) {
    forall l, e :: l in file && e in es ==> l != "" && !Belongs(l, e.port, KeyOf(e))
  }

  lemma AppliedFilters(file: seq<string>, e: Event)
    requires e.Enrol? ==> IsPubkey(e.pubkey)
    ensures Applied(file, e)
            == Filter(file, l => l == "" || Belongs(l, e.port, KeyOf(e))) + (if e.Enrol? then [LineOf(e)] else [])
  {
    if e.Enrol? {
      var line := KeyLine(e.port, e.pubkey);
      forall l: string ensures Superseded(l, line) <==> Belongs(l, e.port, Material(e.pubkey)) {
        SupersededMeans(l, e.port, e.pubkey);
      }
      hide Superseded, Belongs, KeyLine, Material, IsPubkey;
      SameFilter(file, l => l == "" || Superseded(l, line), l => l == "" || Belongs(l, e.port, KeyOf(e)));
    } else {
      hide Belongs, StoredMaterial;
      SameFilter(file, l => l == "" || Belongs(l, e.port, StoredMaterial(e.stored)),
                 l => l == "" || Belongs(l, e.port, KeyOf(e)));
    }
  }

  lemma {:induction false} SameFilter(ls: seq<string>, f: string -> bool, g: string -> bool)
    requires forall l :: f(l) == g(l)
    ensures Filter(ls, f) == Filter(ls, g)
  {
    if ls != [] {
      SameFilter(ls[1..], f, g);
    }
  }

  lemma OwnLineDropped(l: Event)
    requires l.Enrol?
    ensures LineOf(l) != "" && forall material :: Belongs(LineOf(l), l.port, material)
  {
    LineNamesItsPort(l.port, l.pubkey);
    hide Contains, Needle;
  }

  lemma {:induction false} LiveFilter(live: seq<Event>, e: Event, drop: string -> bool)
    requires forall l :: l in live ==> (l.port == e.port ==> drop(LineOf(l)))
    ensures |Filter(LiveLines(live), drop)| <= |Without(live, e.port)|
    ensures (forall l :: l in live && l.port != e.port ==> !drop(LineOf(l)))
            <==> Filter(LiveLines(live), drop) == LiveLines(Without(live, e.port))
    ensures |LiveLines(Without(live, e.port))| == |Without(live, e.port)|
    ensures (exists l :: l in live && l.port != e.port && drop(LineOf(l))) ==>
              |Filter(LiveLines(live), drop)| < |Without(live, e.port)|
  {
    hide LineOf;
    if live != [] {
      var rest := Without(live[1..], e.port);
      assert live[0] in live && live == [live[0]] + live[1..];
      assert LiveLines(live)[1..] == LiveLines(live[1..]);
      LiveFilter(live[1..], e, drop);
      assert [] + rest == rest && ([live[0]] + rest)[1..] == rest;
    }
  }

  lemma {:induction false} LiveAreEvents(es: seq<Event>)
    ensures forall l :: l in Live(es) ==> l in es && l.Enrol?
  {
    if es != [] {
      LiveAreEvents(es[..|es| - 1]);
      WithoutIsPart(Live(es[..|es| - 1]), es[|es| - 1].port);
    }
  }

  lemma {:induction false} WithoutIsPart(live: seq<Event>, port: nat)
    ensures forall l :: l in Without(live, port) <==> l in live && l.port != port
  {
    if live != [] {
      WithoutIsPart(live[1..], port);
    }
  }

  lemma {:induction false} LiveLinesAppend(a: seq<Event>, b: seq<Event>)
    ensures LiveLines(a + b) == LiveLines(a) + LiveLines(b)
  {
    hide LineOf;
    if a == [] {
      assert a + b == b;
    } else {
      assert (a + b)[1..] == a[1..] + b;
      LiveLinesAppend(a[1..], b);
    }
  }

  lemma AppendBoth(file: seq<string>, a: seq<string>, b: seq<string>, tail: seq<string>)
    ensures file + a + tail == file + (b + tail) <==> a == b
  {
    assert file + a + tail == file + (a + tail);
    if a + tail == b + tail {
      assert |a| == |b|;
      assert a == (a + tail)[..|a|] && b == (b + tail)[..|b|];
    }
    if file + (a + tail) == file + (b + tail) {
      assert a + tail == (file + (a + tail))[|file|..] && b + tail == (file + (b + tail))[|file|..];
    }
  }

  /** A step takes the foreign lines and the live ones to those of the live boxes after it
      exactly if it spares the others. */
  lemma StepIsExact(file: seq<string>, live: seq<Event>, e: Event)
    requires e.Enrol? ==> IsPubkey(e.pubkey)
    requires forall l :: l in file ==> l != "" && !Belongs(l, e.port, KeyOf(e))
    requires forall l :: l in live ==> l.Enrol?
    ensures Applied(file + LiveLines(live), e)
            == file + LiveLines(Without(live, e.port) + (if e.Enrol? then [e] else []))
            <==> Spares(e, live)
  {
    var drop := (l: string) => l == "" || Belongs(l, e.port, KeyOf(e));
    forall l | l in live ensures (l.port == e.port ==> drop(LineOf(l))) && LineOf(l) != "" {
      OwnLineDropped(l);
    }
    var last: seq<Event> := if e.Enrol? then [e] else [];
    assert LiveLines(last) == if e.Enrol? then [LineOf(e)] else [];
    hide Belongs, LineOf, KeyOf, Contains, Applied, IsPubkey;
    AppliedFilters(file + LiveLines(live), e);
    SameFilter(file + LiveLines(live), drop, l => l == "" || Belongs(l, e.port, KeyOf(e)));
    FilterAppend(file, LiveLines(live), drop);
    forall i | 0 <= i < |file| ensures !drop(file[i]) {
      assert file[i] in file;
    }
    FilterKeepsAll(file, drop);
    LiveFilter(live, e, drop);
    LiveLinesAppend(Without(live, e.port), last);
    AppendBoth(file, Filter(LiveLines(live), drop), LiveLines(Without(live, e.port)), LiveLines(last));
  }

  lemma PrefixIsForeign(file: seq<string>, es: seq<Event>)
    requires es != [] && AllPubkeys(es) && Foreign(file, es)
    ensures AllPubkeys(es[..|es| - 1]) && Foreign(file, es[..|es| - 1])
    ensures var e := es[|es| - 1];
            (e.Enrol? ==> IsPubkey(e.pubkey)) && forall l :: l in file ==> l != "" && !Belongs(l, e.port, KeyOf(e))
  {
    hide IsPubkey, Belongs, KeyOf;
    assert es[|es| - 1] in es;
    assert forall x :: x in es[..|es| - 1] ==> x in es;
  }

  /** After every step of the run: the foreign lines in their order, then exactly one line
      for each live box, oldest install first. */
  ghost predicate AlwaysForeignPlusLive(file: seq<string>, es: seq<Event>)
    decreases |es|
  {
    && RunFile(file, es) == file + LiveLines(Live(es))
    && (es == [] || AlwaysForeignPlusLive(file, es[..|es| - 1]))
  }

  ghost predicate AlwaysSpares(es: seq<Event>)
    decreases |es|
  {
    es == [] || (AlwaysSpares(es[..|es| - 1]) && Spares(es[|es| - 1], Live(es[..|es| - 1])))
  }

  /** The file has that shape all the time exactly if no event ever takes a live line of
      another port for its own: by its port, in the comment of the other's key, or by its
      key. */
  lemma {:induction false} FileIsExact(file: seq<string>, es: seq<Event>)
    requires AllPubkeys(es) && Foreign(file, es)
    ensures AlwaysForeignPlusLive(file, es) <==> AlwaysSpares(es)
    decreases |es|
  {
    if es == [] {
      assert file + [] == file;
    } else {
      var pre, e := es[..|es| - 1], es[|es| - 1];
      PrefixIsForeign(file, es);
      FileIsExact(file, pre);
      LiveAreEvents(pre);
      hide Belongs, LineOf, KeyOf, Applied, IsPubkey, Foreign, Spares;
      if AlwaysForeignPlusLive(file, pre) {
        assert RunFile(file, es) == Applied(file + LiveLines(Live(pre)), e);
        StepIsExact(file, Live(pre), e);
      }
    }
  }

  lemma {:induction false} SeparateSpares(es: seq<Event>)
    requires Separate(es)
    ensures AlwaysSpares(es)
    decreases |es|
  {
    hide Belongs, LineOf, KeyOf;
    if es != [] {
      var pre, e := es[..|es| - 1], es[|es| - 1];
      assert e in es && forall x :: x in pre ==> x in es;
      SeparateSpares(pre);
      LiveAreEvents(pre);
    }
  }

  /** So it has for boxes whose lines carry neither another's port nor another's key. */
  lemma FileIsForeignPlusLive(file: seq<string>, es: seq<Event>)
    requires AllPubkeys(es) && Separate(es) && Foreign(file, es)
    ensures RunFile(file, es) == file + LiveLines(Live(es))
  {
    hide AllPubkeys, Separate, Foreign, AlwaysSpares, RunFile, LiveLines, Live;
    SeparateSpares(es);
    FileIsExact(file, es);
  }

  lemma WordInTwo(kind: string, word: string, comment: string)
    requires NoSpace(kind) && NoSpace(word) && word != ""
    ensures Nth(Fields(kind + " " + (word + " " + comment)), 1) == word
  {
    FirstField(kind, word + " " + comment);
    assert word[0] in word;
    assert TrimLeft(word + " " + comment, IsJsSpace) == word + " " + comment;
    hide Fields, TrimLeft;
    FirstField(word, comment);
  }

  lemma AbsentStart(s: string, needle: string)
    requires needle != "" && needle[0] !in s
    ensures !Contains(s, needle)
  {
    forall i: nat | i <= |s| ensures !OccursAt(s, needle, i) {
      if i + |needle| <= |s| {
        assert s[i..i + |needle|][0] == s[i];
      }
    }
  }

  lemma NotInLine(c: char, port: nat, pubkey: string)
    requires c == 'A' || c == 'B'
    requires c !in pubkey
    ensures c !in KeyLine(port, pubkey)
  {
    hide Decimal;
    assert c !in Decimal(port) && c !in OPTIONS && c !in PERMIT && c !in LOCAL;
    forall x | x in KeyLine(port, pubkey) ensures x != c {
      assert x in OPTIONS || x in PERMIT || x == '"' || x in LOCAL || x in Decimal(port) || x == ' ' || x in pubkey;
    }
  }

  const QUOTING := KIND + " " + ("AAAA" + " " + Needle(2))
  const OTHER := KIND + " " + ("BBBB" + " " + "box")

  lemma KindThenRest(rest: string)
    requires rest != "" && !IsJsSpace(rest[|rest| - 1]) && '\n' !in rest
    ensures IsPubkey(KIND + " " + rest)
  {
    var pubkey := KIND + " " + rest;
    assert pubkey[..|KIND| + 1] == KIND + " ";
    assert pubkey[0] == KIND[0] && !IsJsSpace(KIND[0]) && '\n' !in KIND;
    hide IsJsSpace;
    assert forall c :: c in pubkey ==> c in KIND || c == ' ' || c in rest;
  }

  lemma PlainWords()
    ensures NoSpace(KIND) && NoSpace("AAAA") && '\n' !in "AAAA"
  {
  }

  lemma QuotingKey()
    ensures IsPubkey(QUOTING) && Material(QUOTING) == "AAAA" && Contains(QUOTING, Needle(2))
  {
    hide Fields, Needle, Contains, OccursAt, IsPubkey, NoSpace, IsJsSpace;
    PlainWords();
    NeedleIsOneWord(2);
    NeedleHasNoNewline(2);
    WordInTwo(KIND, "AAAA", Needle(2));
    FoundAtEnd(KIND + " " + ("AAAA" + " "), Needle(2));
    assert KIND + " " + ("AAAA" + " ") + Needle(2) == QUOTING;
    QuotingRest("AAAA", Needle(2));
  }

  lemma QuotingRest(word: string, comment: string)
    requires comment != "" && !IsJsSpace(comment[|comment| - 1]) && '\n' !in word && '\n' !in comment
    ensures IsPubkey(KIND + " " + (word + " " + comment))
  {
    var rest := word + " " + comment;
    hide IsPubkey, IsJsSpace;
    assert rest[|rest| - 1] == comment[|comment| - 1];
    assert forall c :: c in rest ==> c in word || c == ' ' || c in comment;
    KindThenRest(rest);
  }

  lemma NeedleHasNoNewline(port: nat)
    ensures '\n' !in Needle(port) && Needle(port)[|Needle(port)| - 1] == '"' && !IsJsSpace('"')
    ensures 'B' !in Needle(port)
  {
    hide Decimal;
    assert forall c :: c in Needle(port) ==> c in PERMIT || c == '"' || c in LOCAL || c in Decimal(port);
  }

  lemma FoundAtEnd(ahead: string, needle: string)
    ensures Contains(ahead + needle, needle)
  {
    assert (ahead + needle)[|ahead|..|ahead| + |needle|] == needle;
    Found(ahead + needle, needle, |ahead|);
  }

  lemma OtherKey()
    ensures IsPubkey(OTHER) && Material(OTHER) == "BBBB"
  {
    assert NoSpace(KIND) && NoSpace("BBBB");
    var rest := "BBBB" + " " + "box";
    assert rest[|rest| - 1] == 'x' && '\n' !in rest;
    hide Fields, IsPubkey;
    KindThenRest(rest);
    WordInTwo(KIND, "BBBB", "box");
  }

  lemma NoForeignLetters()
    ensures 'B' !in QUOTING && 'A' !in OTHER
  {
    NeedleHasNoNewline(2);
    hide Needle;
    assert forall c :: c in QUOTING ==> c in KIND || c == ' ' || c in "AAAA" || c in Needle(2);
  }

  lemma LinesOfTheTwo()
    ensures var d, e := Enrol(1, QUOTING), Enrol(2, OTHER);
            && KeyOf(d) == "AAAA" && KeyOf(e) == "BBBB" && Belongs(LineOf(d), 2, "BBBB")
            && !Contains(LineOf(d), "BBBB") && !Contains(LineOf(e), "AAAA")
  {
    QuotingKey();
    OtherKey();
    NoForeignLetters();
    LineNamesPort(2, 1, QUOTING);
    NotInLine('B', 1, QUOTING);
    NotInLine('A', 2, OTHER);
    hide Contains, IsPubkey, Fields, KeyLine, Needle;
    AbsentStart(KeyLine(1, QUOTING), "BBBB");
    AbsentStart(KeyLine(2, OTHER), "AAAA");
  }

  lemma OneMoreEvent(file: seq<string>, es: seq<Event>, e: Event)
    ensures RunFile(file, es + [e]) == Applied(RunFile(file, es), e)
    ensures Live(es + [e]) == Without(Live(es), e.port) + (if e.Enrol? then [e] else [])
  {
    assert (es + [e])[..|es|] == es;
    hide Applied;
  }

  lemma NothingYet(file: seq<string>, d: Event, port: nat)
    requires d.port != port
    ensures RunFile(file, []) == file && Live([]) == [] && Without([], d.port) == [] && Without([d], port) == [d]
  {
  }

  lemma FilterShort(line: string)
    ensures forall drop: string -> bool :: Filter([], drop) == []
    ensures forall drop: string -> bool :: drop(line) ==> Filter([line], drop) == []
  {
  }

  lemma TwoInstalls(d: Event, e: Event)
    requires d.Enrol? && e.Enrol? && d.port != e.port && IsPubkey(d.pubkey) && IsPubkey(e.pubkey)
    requires Belongs(LineOf(d), e.port, KeyOf(e))
    ensures AllPubkeys([d, e]) && Live([d, e]) == [d, e] && RunFile([], [d, e]) == [LineOf(e)]
  {
    hide IsPubkey, Belongs, LineOf, Applied, KeyOf, RunFile, Live, Without;
    OneMoreEvent([], [], d);
    OneMoreEvent([], [d], e);
    NothingYet([], d, e.port);
    FilterShort(LineOf(d));
    assert [] + [d] == [d] && [d] + [e] == [d, e];
    AppliedFilters([], d);
    AppliedFilters([LineOf(d)], e);
    hide Filter;
    assert Applied([], d) == [] + [LineOf(d)] == [LineOf(d)];
    assert Applied([LineOf(d)], e) == [] + [LineOf(e)] == [LineOf(e)];
  }

  /** The run that breaks it: the comment of the first box's key quotes the second port.
      Enrolling the second box drops the line of the first, although the ports differ and
      neither key is part of the other's line. */
  lemma QuotedPortLosesALine()
    ensures var d, e := Enrol(1, QUOTING), Enrol(2, OTHER);
            && AllPubkeys([d, e]) && Live([d, e]) == [d, e]
            && !Contains(LineOf(d), KeyOf(e)) && !Contains(LineOf(e), KeyOf(d))
            && RunFile([], [d, e]) == [LineOf(e)]
  {
    hide *;
    QuotingKey();
    OtherKey();
    LinesOfTheTwo();
    TwoInstalls(Enrol(1, QUOTING), Enrol(2, OTHER));
  }

  /** The last event on a port, if any. */
  function LastOf(es: seq<Event>, port: nat): seq<Event> {
    if es == [] then []
    else if es[|es| - 1].port == port then [es[|es| - 1]]
    else LastOf(es[..|es| - 1], port)
  }

  /** The live entries of one port. */
  function OnPort(live: seq<Event>, port: nat): seq<Event> {
    if live == [] then []
    else (if live[0].port == port then [live[0]] else []) + OnPort(live[1..], port)
  }

  lemma OnPortFirst(e: Event, rest: seq<Event>, port: nat)
    ensures OnPort([e] + rest, port) == (if e.port == port then [e] else []) + OnPort(rest, port)
  {
    assert ([e] + rest)[1..] == rest;
  }

  lemma {:induction false} OnPortAppend(a: seq<Event>, b: seq<Event>, port: nat)
    ensures OnPort(a + b, port) == OnPort(a, port) + OnPort(b, port)
  {
    if a == [] {
      assert a + b == b && OnPort(a, port) + OnPort(b, port) == OnPort(b, port);
    } else {
      hide OnPort;
      OnPortAppend(a[1..], b, port);
      assert a == [a[0]] + a[1..] && a + b == [a[0]] + (a[1..] + b);
      OnPortFirst(a[0], a[1..], port);
      OnPortFirst(a[0], a[1..] + b, port);
    }
  }

  lemma {:induction false} OnPortWithout(live: seq<Event>, gone: nat, port: nat)
    ensures OnPort(Without(live, gone), port) == if gone == port then [] else OnPort(live, port)
  {
    if live != [] {
      OnPortWithout(live[1..], gone, port);
      OnPortAppend(if live[0].port == gone then [] else [live[0]], Without(live[1..], gone), port);
    }
  }

  /** A port has one live entry when its last event installed it, that one, and
      none when its last event removed it or there was none. */
  lemma {:induction false} LiveIsLastEvent(es: seq<Event>, port: nat)
    ensures OnPort(Live(es), port) == var last := LastOf(es, port); if last != [] && last[0].Enrol? then last else []
  {
    if es != [] {
      var pre, e := es[..|es| - 1], es[|es| - 1];
      LiveIsLastEvent(pre, port);
      OnPortWithout(Live(pre), e.port, port);
      OnPortAppend(Without(Live(pre), e.port), if e.Enrol? then [e] else [], port);
      assert OnPort([e], port) == if e.port == port then [e] else [];
    }
  }
}
