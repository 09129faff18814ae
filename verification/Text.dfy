/** The string operations the rewriters and their checkers share: trimming by a
    class of blanks, splitting a text into lines and joining it again, and
    searching for a character or a substring. */
module Text {

  /** The blanks of the config grammar: space, tab and carriage return. */
  predicate IsBlank(c: char) {
    c == ' ' || c == '\t' || c == '\r'
  }

  /** JavaScript's white space: what its `trim` strips and its `\s` matches. */
  predicate IsJsSpace(c: char) {
    || c == ' ' || c == '\t' || c == '\n' || c == '\r' || c == '\U{000B}' || c == '\U{000C}'
    || c == '\U{00A0}' || c == '\U{1680}' || '\U{2000}' <= c <= '\U{200A}'
    || c == '\U{2028}' || c == '\U{2029}' || c == '\U{202F}' || c == '\U{205F}' || c == '\U{3000}' || c == '\U{FEFF}'
  }

  /** What the regular expression `.` does not match. */
  predicate IsTerminator(c: char) {
    c == '\n' || c == '\r' || c == '\U{2028}' || c == '\U{2029}'
  }

  predicate NoTerminator(s: string) {
    forall c :: c in s ==> !IsTerminator(c)
  }

  predicate AllIn(s: string, p: char -> bool) {
    forall i :: 0 <= i < |s| ==> p(s[i])
  }

  // ----- trimming -----

  function TrimLeft(s: string, ws: char -> bool): string {
    if s != [] && ws(s[0]) then TrimLeft(s[1..], ws) else s
  }

  function TrimRight(s: string, ws: char -> bool): string {
    if s != [] && ws(s[|s| - 1]) then TrimRight(s[..|s| - 1], ws) else s
  }

  function Trim(s: string, ws: char -> bool): string {
    TrimRight(TrimLeft(s, ws), ws)
  }

  function TrimBlanks(s: string): string {
    Trim(s, IsBlank)
  }

  /** JavaScript's `trim`. */
  function TrimJs(s: string): string {
    Trim(s, IsJsSpace)
  }

  predicate Trimmed(s: string, ws: char -> bool) {
    s == [] || (!ws(s[0]) && !ws(s[|s| - 1]))
  }

  /** Trimming cuts a blank prefix and a blank suffix and leaves a trimmed core. */
  lemma TrimSplits(s: string, ws: char -> bool) returns (a: string, b: string)
    ensures s == a + Trim(s, ws) + b
    ensures AllIn(a, ws) && AllIn(b, ws)
    ensures Trimmed(Trim(s, ws), ws)
  {
    a := TrimLeftSplits(s, ws);
    b := TrimRightSplits(TrimLeft(s, ws), ws);
  }

  lemma TrimKeepsChars(s: string, ws: char -> bool)
    ensures forall c :: c in Trim(s, ws) ==> c in s
  {
    var a, b := TrimSplits(s, ws);
    forall c | c in Trim(s, ws) ensures c in s {
      assert c in a + Trim(s, ws) + b;
    }
  }

  lemma {:induction false} TrimLeftSplits(s: string, ws: char -> bool) returns (a: string)
    ensures s == a + TrimLeft(s, ws) && AllIn(a, ws)
    ensures TrimLeft(s, ws) == [] || !ws(TrimLeft(s, ws)[0])
  {
    if s != [] && ws(s[0]) {
      a := TrimLeftSplits(s[1..], ws);
      a := [s[0]] + a;
    } else {
      a := [];
    }
  }

  lemma {:induction false} TrimRightSplits(s: string, ws: char -> bool) returns (b: string)
    ensures s == TrimRight(s, ws) + b && AllIn(b, ws)
    ensures TrimRight(s, ws) == [] || !ws(TrimRight(s, ws)[|TrimRight(s, ws)| - 1])
  {
    if s != [] && ws(s[|s| - 1]) {
      b := TrimRightSplits(s[..|s| - 1], ws);
      b := b + [s[|s| - 1]];
    } else {
      b := [];
    }
  }

  /** A trimmed core inside blanks is what trimming returns. */
  lemma TrimCore(a: string, t: string, b: string, ws: char -> bool)
    requires AllIn(a, ws) && AllIn(b, ws) && Trimmed(t, ws)
    ensures Trim(a + t + b, ws) == t
  {
    if t == [] {
      assert a + t + b == (a + b) + [];
      TrimLeftDrops(a + b, [], ws);
    } else {
      assert a + t + b == a + (t + b);
      TrimLeftDrops(a, t + b, ws);
      TrimRightDrops(t, b, ws);
    }
  }

  lemma {:induction false} TrimLeftDrops(a: string, t: string, ws: char -> bool)
    requires AllIn(a, ws)
    requires t == [] || !ws(t[0])
    ensures TrimLeft(a + t, ws) == t
  {
    if a == [] {
      assert a + t == t;
    } else {
      assert (a + t)[1..] == a[1..] + t;
      TrimLeftDrops(a[1..], t, ws);
    }
  }

  lemma {:induction false} TrimRightDrops(t: string, b: string, ws: char -> bool)
    requires AllIn(b, ws)
    requires t == [] || !ws(t[|t| - 1])
    ensures TrimRight(t + b, ws) == t
  {
    if b == [] {
      assert t + b == t;
    } else {
      assert (t + b)[..|t + b| - 1] == t + b[..|b| - 1];
      TrimRightDrops(t, b[..|b| - 1], ws);
    }
  }

  /** Two blank classes that agree on every character of a string trim it alike. */
  lemma TrimAgrees(s: string, p: char -> bool, q: char -> bool)
    requires forall i :: 0 <= i < |s| ==> p(s[i]) == q(s[i])
    ensures Trim(s, p) == Trim(s, q)
  {
    var a, b := TrimSplits(s, p);
    var t := Trim(s, p);
    forall i | 0 <= i < |t| ensures t[i] == s[|a| + i] {}
    forall i | 0 <= i < |a| ensures q(a[i]) { assert a[i] == s[i]; }
    forall i | 0 <= i < |b| ensures q(b[i]) { assert b[i] == s[|a| + |t| + i]; }
    TrimCore(a, t, b, q);
  }

  // ----- searching -----

  /** The first position of `c`, or -1. */
  function IndexOf(s: string, c: char): (i: int)
    ensures -1 <= i < |s|
    ensures i >= 0 ==> s[i] == c && c !in s[..i]
    ensures i < 0 ==> c !in s
  {
    if s == [] then -1
    else if s[0] == c then 0
    else
      var i := IndexOf(s[1..], c);
      if i < 0 then -1 else i + 1
  }

  lemma {:induction false} IndexOfAt(a: string, c: char, b: string)
    requires c !in a
    ensures IndexOf(a + [c] + b, c) == |a|
  {
    var s := a + [c] + b;
    if a != [] {
      assert s[0] == a[0] && s[1..] == a[1..] + [c] + b;
      IndexOfAt(a[1..], c, b);
    }
  }

  predicate OccursAt(s: string, sub: string, i: nat) {
    i + |sub| <= |s| && s[i..i + |sub|] == sub
  }

  /** `sub` occurs somewhere in `s`. */
  predicate Contains(s: string, sub: string) {
    exists i: nat | i <= |s| :: OccursAt(s, sub, i)
  }

  predicate StartsWith(s: string, p: string) {
    |p| <= |s| && s[..|p|] == p
  }

  // ----- lines -----

  /** The pieces between newlines; never empty, as a text without one is a single line. */
  function Lines(s: string): (ls: seq<string>)
    ensures ls != []
  {
    var i := IndexOf(s, '\n');
    if i < 0 then [s] else [s[..i]] + Lines(s[i + 1..])
  }

  lemma {:induction false} LinesHaveNoNewlines(s: string)
    ensures NoNewlines(Lines(s))
  {
    var i := IndexOf(s, '\n');
    if i >= 0 {
      var rest := Lines(s[i + 1..]);
      assert Lines(s) == [s[..i]] + rest;
      hide Lines, IndexOf;
      LinesHaveNoNewlines(s[i + 1..]);
    }
  }

  function Join(ls: seq<string>): string {
    if |ls| == 0 then ""
    else if |ls| == 1 then ls[0]
    else ls[0] + "\n" + Join(ls[1..])
  }

  predicate NoNewlines(ls: seq<string>) {
    forall i :: 0 <= i < |ls| ==> '\n' !in ls[i]
  }

  lemma FirstLine(p: string, rest: string)
    requires '\n' !in p
    ensures Lines(p + "\n" + rest) == [p] + Lines(rest)
  {
    var s := p + ['\n'] + rest;
    IndexOfAt(p, '\n', rest);
    assert s[..|p|] == p && s[|p| + 1..] == rest;
  }

  lemma OnlyLine(p: string)
    requires '\n' !in p
    ensures Lines(p) == [p]
  {
  }

  lemma {:induction false} LinesAppend(a: string, b: string)
    ensures Lines(a + "\n" + b) == Lines(a) + Lines(b)
  {
    hide Lines;
    var i := IndexOf(a, '\n');
    if i < 0 {
      OnlyLine(a);
      FirstLine(a, b);
    } else {
      var p, rest := a[..i], a[i + 1..];
      assert a == p + "\n" + rest;
      assert a + "\n" + b == p + "\n" + (rest + "\n" + b);
      FirstLine(p, rest);
      FirstLine(p, rest + "\n" + b);
      LinesAppend(rest, b);
    }
  }

  /** Splitting undoes joining. */
  lemma {:induction false} JoinOfLines(s: string)
    ensures Join(Lines(s)) == s
    decreases |s|
  {
    var i := IndexOf(s, '\n');
    if i >= 0 {
      JoinOfLines(s[i + 1..]);
      assert s == s[..i] + "\n" + s[i + 1..];
      assert Lines(s)[1..] == Lines(s[i + 1..]);
    }
  }

  lemma {:induction false} LinesOfJoin(ls: seq<string>)
    requires ls != [] && NoNewlines(ls)
    ensures Lines(Join(ls)) == ls
  {
    hide Lines;
    if |ls| == 1 {
      OnlyLine(ls[0]);
    } else {
      FirstLine(ls[0], Join(ls[1..]));
      LinesOfJoin(ls[1..]);
    }
  }

  /** Every line with its newline. */
  function Unlines(ls: seq<string>): string {
    if ls == [] then "" else ls[0] + "\n" + Unlines(ls[1..])
  }

  lemma {:induction false} LinesOfUnlines(ls: seq<string>)
    requires NoNewlines(ls)
    ensures Lines(Unlines(ls)) == ls + [""]
  {
    hide Lines;
    if ls == [] {
      OnlyLine("");
    } else {
      FirstLine(ls[0], Unlines(ls[1..]));
      LinesOfUnlines(ls[1..]);
    }
  }

  // ----- fields and numbers -----

  predicate NoSpace(s: string) {
    forall c :: c in s ==> !IsJsSpace(c)
  }

  /** The length of the longest prefix without white space. */
  function WordLength(s: string): (n: nat)
    ensures n <= |s| && (n < |s| ==> IsJsSpace(s[n])) && forall i :: 0 <= i < n ==> !IsJsSpace(s[i])
  {
    if s == "" || IsJsSpace(s[0]) then 0 else 1 + WordLength(s[1..])
  }

  lemma {:induction false} TrimLeftShortens(s: string, ws: char -> bool)
    ensures |TrimLeft(s, ws)| <= |s|
  {
    if s != [] && ws(s[0]) {
      TrimLeftShortens(s[1..], ws);
    }
  }

  /** `split(/\s+/)`: the pieces between runs of white space. */
  function Fields(s: string): (fs: seq<string>)
    ensures fs != []
    decreases |s|
  {
    var n := WordLength(s);
    if n == |s| then [s]
    else
      TrimLeftShortens(s[n + 1..], IsJsSpace);
      [s[..n]] + Fields(TrimLeft(s[n + 1..], IsJsSpace))
  }

  lemma WordLengthAt(word: string, rest: string)
    requires NoSpace(word) && (rest == "" || IsJsSpace(rest[0]))
    ensures WordLength(word + rest) == |word|
  {
    var s := word + rest;
    var n := WordLength(s);
    assert forall i :: 0 <= i < |word| ==> s[i] == word[i] && word[i] in word;
    assert |word| < |s| ==> s[|word|] == rest[0];
  }

  /** A word before a blank is the first field. */
  lemma FirstField(word: string, rest: string)
    requires NoSpace(word)
    ensures Fields(word + " " + rest) == [word] + Fields(TrimLeft(rest, IsJsSpace))
  {
    var s := word + " " + rest;
    assert s == word + (" " + rest);
    WordLengthAt(word, " " + rest);
    assert s[..|word|] == word && s[|word| + 1..] == rest;
  }

  function Digit(d: nat): char
    requires d < 10
  {
    "0123456789"[d]
  }

  function Decimal(n: nat): (s: string)
    ensures s != "" && forall c :: c in s ==> '0' <= c <= '9'
  {
    if n < 10 then [Digit(n)] else Decimal(n / 10) + [Digit(n % 10)]
  }

  lemma {:induction false} DecimalIsInjective(m: nat, n: nat)
    requires Decimal(m) == Decimal(n)
    ensures m == n
  {
    var s := Decimal(m);
    assert s[|s| - 1] == Digit(m % 10) && s[|s| - 1] == Digit(n % 10);
    DigitIsInjective(m % 10, n % 10);
    if m >= 10 && n >= 10 {
      assert s[..|s| - 1] == Decimal(m / 10) && s[..|s| - 1] == Decimal(n / 10);
      DecimalIsInjective(m / 10, n / 10);
    }
  }

  lemma DigitIsInjective(a: nat, b: nat)
    requires a < 10 && b < 10 && Digit(a) == Digit(b)
    ensures a == b
  {
  }

  // ----- reading numbers -----

  predicate IsDigit(c: char) {
    '0' <= c <= '9'
  }

  predicate AllDigits(s: string) {
    forall i :: 0 <= i < |s| ==> IsDigit(s[i])
  }

  /** How many digits a text begins with. */
  function DigitRun(s: string): (n: nat)
    ensures n <= |s| && AllDigits(s[..n])
    ensures n < |s| ==> !IsDigit(s[n])
  {
    if s == [] || !IsDigit(s[0]) then 0 else 1 + DigitRun(s[1..])
  }

  function Number(digits: string): nat
    requires AllDigits(digits)
  {
    if digits == [] then 0
    else
      assert IsDigit(digits[|digits| - 1]);
      10 * Number(digits[..|digits| - 1]) + ((digits[|digits| - 1] as int) - ('0' as int))
  }

  lemma {:induction false} NumberOfDecimal(n: nat)
    ensures AllDigits(Decimal(n)) && Number(Decimal(n)) == n
  {
    forall i | 0 <= i < |Decimal(n)| ensures IsDigit(Decimal(n)[i]) {
      assert Decimal(n)[i] in Decimal(n);
    }
    if n >= 10 {
      NumberOfDecimal(n / 10);
      assert Decimal(n)[..|Decimal(n)| - 1] == Decimal(n / 10);
    } else {
      assert Decimal(n)[..0] == [];
    }
  }

  lemma {:induction false} DigitRunStops(digits: string, rest: string)
    requires AllDigits(digits) && (rest == [] || !IsDigit(rest[0]))
    ensures DigitRun(digits + rest) == |digits|
  {
    if digits == [] {
      assert digits + rest == rest;
    } else {
      assert (digits + rest)[1..] == digits[1..] + rest;
      DigitRunStops(digits[1..], rest);
    }
  }
}
