/** The two version comparisons: `compareVersions` (fleet/src/serve/lease-eligibility.ts)
    and `renameVerGe` (fleet/src/commands/rename.ts). */
module Versions {
  import opened Text

  // ----- strings by code unit -----

  predicate Before(x: string, y: string) {
    if y == [] then false
    else if x == [] then true
    else if x[0] != y[0] then x[0] < y[0]
    else Before(x[1..], y[1..])
  }

  lemma {:induction false} BeforeIsTotal(x: string, y: string)
    ensures x == y <==> !Before(x, y) && !Before(y, x)
    ensures !(Before(x, y) && Before(y, x))
  {
    if x != [] && y != [] {
      BeforeIsTotal(x[1..], y[1..]);
      assert x == [x[0]] + x[1..] && y == [y[0]] + y[1..];
    }
  }

  lemma {:induction false} BeforeIsTransitive(x: string, y: string, z: string)
    requires Before(x, y) && Before(y, z)
    ensures Before(x, z)
  {
    if x != [] && x[0] == y[0] == z[0] {
      BeforeIsTransitive(x[1..], y[1..], z[1..]);
    }
  }

  // ----- segments -----

  predicate IsSep(c: char) {
    c == '.' || c == '-' || c == '+'
  }

  function Split(s: string, sep: char -> bool): (parts: seq<string>)
    ensures parts != []
  {
    if s == [] then [""]
    else
      var rest := Split(s[1..], sep);
      if sep(s[0]) then [""] + rest else [[s[0]] + rest[0]] + rest[1..]
  }

  lemma {:induction false} SplitAt(x: string, c: char, rest: string, sep: char -> bool)
    requires sep(c) && forall i :: 0 <= i < |x| ==> !sep(x[i])
    ensures Split(x + [c] + rest, sep) == [x] + Split(rest, sep)
  {
    var s := x + [c] + rest;
    if x == [] {
      assert s == [c] + rest;
    } else {
      assert s[1..] == x[1..] + [c] + rest;
      SplitAt(x[1..], c, rest, sep);
      assert x == [x[0]] + x[1..];
    }
  }

  lemma {:induction false} SplitNone(x: string, sep: char -> bool)
    requires forall i :: 0 <= i < |x| ==> !sep(x[i])
    ensures Split(x, sep) == [x]
  {
    if x != [] {
      SplitNone(x[1..], sep);
      assert x == [x[0]] + x[1..];
    }
  }

  /** One more character in front of a text split like this. */
  function Grown(d: char, parts: seq<string>, sep: char -> bool): seq<string>
    requires parts != []
  {
    if sep(d) then [""] + parts else [[d] + parts[0]] + parts[1..]
  }

  lemma SplitFirst(d: char, t: string, sep: char -> bool)
    ensures Split([d] + t, sep) == Grown(d, Split(t, sep), sep)
  {
    assert ([d] + t)[1..] == t;
  }

  lemma GrownInFront(d: char, a: seq<string>, b: seq<string>, sep: char -> bool)
    requires a != []
    ensures Grown(d, a + b, sep) == Grown(d, a, sep) + b
  {
    assert (a + b)[0] == a[0] && (a + b)[1..] == a[1..] + b;
  }

  lemma SplitEmpty(c: char, y: string, sep: char -> bool)
    requires sep(c)
    ensures Split([c] + y, sep) == Split("", sep) + Split(y, sep)
  {
    SplitFirst(c, y, sep);
    assert Split("", sep) == [""];
  }

  lemma {:induction false} SplitMeets(x: string, c: char, y: string, sep: char -> bool)
    requires sep(c)
    ensures Split(x + [c] + y, sep) == Split(x, sep) + Split(y, sep)
  {
    hide *;
    if x == [] {
      assert x + [c] + y == [c] + y;
      SplitEmpty(c, y, sep);
    } else {
      var t := x[1..];
      SplitMeets(t, c, y, sep);
      assert x + [c] + y == [x[0]] + (t + [c] + y) && x == [x[0]] + t;
      SplitFirst(x[0], t + [c] + y, sep);
      SplitFirst(x[0], t, sep);
      GrownInFront(x[0], Split(t, sep), Split(y, sep), sep);
    }
  }

  /** A version falls into segments at each dot, hyphen and plus sign, and nowhere else. */
  lemma SegmentsMeetAtThree(x: string, c: char, y: string)
    ensures c in ".-+" ==> Split(x + [c] + y, IsSep) == Split(x, IsSep) + Split(y, IsSep)
    ensures (forall d :: d in x ==> d !in ".-+") ==> Split(x, IsSep) == [x]
  {
    if c in ".-+" {
      SplitMeets(x, c, y, IsSep);
    }
    if forall d :: d in x ==> d !in ".-+" {
      assert forall i :: 0 <= i < |x| ==> x[i] in x;
      SplitNone(x, IsSep);
    }
  }

  predicate Numeric(x: string) {
    x != "" && AllDigits(x)
  }

  // ----- compareVersions -----

  function SegCompare(x: string, y: string): int {
    if Numeric(x) && Numeric(y) then Number(x) - Number(y)
    else if x == y then 0
    else if Before(x, y) then -1
    else 1
  }

  function Head(a: seq<string>): string {
    if a == [] then "" else a[0]
  }

  function Tail(a: seq<string>): seq<string> {
    if a == [] then [] else a[1..]
  }

  function Compare(a: seq<string>, b: seq<string>): int
    decreases |a| + |b|
  {
    if a == [] && b == [] then 0
    else if SegCompare(Head(a), Head(b)) != 0 then SegCompare(Head(a), Head(b))
    else Compare(Tail(a), Tail(b))
  }

  lemma CompareStep(a: seq<string>, b: seq<string>, i: nat)
    requires i < |a| || i < |b|
    ensures var c := SegCompare(if i < |a| then a[i] else "", if i < |b| then b[i] else "");
            Compare(From(a, i), From(b, i)) == if c != 0 then c else Compare(From(a, i + 1), From(b, i + 1))
  {
    assert Tail(From(a, i)) == From(a, i + 1) && Tail(From(b, i)) == From(b, i + 1);
    hide SegCompare;
  }

  method CompareVersions(a: string, b: string) returns (c: int)
    ensures c == Compare(Split(a, IsSep), Split(b, IsSep))
  {
    var pa, pb := Split(a, IsSep), Split(b, IsSep);
    var n := if |pa| > |pb| then |pa| else |pb|;
    hide Compare, Split, Number, Before;
    assert From(pa, 0) == pa && From(pb, 0) == pb;
    for i := 0 to n
      invariant Compare(From(pa, i), From(pb, i)) == Compare(pa, pb)
    {
      CompareStep(pa, pb, i);
      var x := if i < |pa| then pa[i] else "";
      var y := if i < |pb| then pb[i] else "";
      if Numeric(x) && Numeric(y) {
        if Number(x) != Number(y) {
          return Number(x) - Number(y);
        }
        continue;
      }
      if x != y {
        return if Before(x, y) then -1 else 1;
      }
    }
    assert From(pa, n) == [] && From(pb, n) == [];
    NothingLeft();
    return 0;
  }

  lemma NothingLeft()
    ensures Compare([], []) == 0
  {
  }

  function From(a: seq<string>, i: nat): seq<string> {
    if i <= |a| then a[i..] else []
  }

  // ----- its laws -----

  function Sign(c: int): int {
    if c < 0 then -1 else if c == 0 then 0 else 1
  }

  lemma SegFlips(x: string, y: string)
    ensures Sign(SegCompare(x, y)) == -Sign(SegCompare(y, x))
    ensures x == y ==> SegCompare(x, y) == 0
  {
    BeforeIsTotal(x, y);
  }

  /** Swapping the versions flips the sign, and every version equals itself. */
  lemma {:induction false} CompareFlips(a: seq<string>, b: seq<string>)
    ensures Sign(Compare(a, b)) == -Sign(Compare(b, a))
    ensures a == b ==> Compare(a, b) == 0
    decreases |a| + |b|
  {
    SegFlips(Head(a), Head(b));
    if a != [] || b != [] {
      hide SegCompare;
      CompareFlips(Tail(a), Tail(b));
    }
  }

  /** Three segments among which the two ways of comparing cannot disagree: nothing but
      numbers and absences, or at most one number. */
  predicate Uniform(x: string, y: string, z: string) {
    || ((Numeric(x) || x == "") && (Numeric(y) || y == "") && (Numeric(z) || z == ""))
    || (!Numeric(x) && !Numeric(y)) || (!Numeric(x) && !Numeric(z)) || (!Numeric(y) && !Numeric(z))
  }

  lemma SegTransitive(x: string, y: string, z: string)
    requires Uniform(x, y, z) && SegCompare(x, y) <= 0 && SegCompare(y, z) <= 0
    ensures SegCompare(x, z) <= 0
    ensures SegCompare(x, z) == 0 ==> SegCompare(x, y) == 0 && SegCompare(y, z) == 0
  {
    hide Number;
    BeforeIsTotal(x, y);
    BeforeIsTotal(y, z);
    BeforeIsTotal(x, z);
    if Before(x, y) && Before(y, z) {
      BeforeIsTransitive(x, y, z);
    }
  }

  ghost predicate AllUniform(a: seq<string>, b: seq<string>, c: seq<string>) {
    forall i: nat :: Uniform(Head(From(a, i)), Head(From(b, i)), Head(From(c, i)))
  }

  /** A preorder on versions that are uniform place by place: on dotted numbers of any
      lengths, and on numbers followed by words. */
  lemma {:induction false} CompareIsTransitive(a: seq<string>, b: seq<string>, c: seq<string>)
    requires AllUniform(a, b, c) && Compare(a, b) <= 0 && Compare(b, c) <= 0
    ensures Compare(a, c) <= 0
    ensures Compare(a, c) == 0 ==> Compare(a, b) == 0 && Compare(b, c) == 0
    decreases |a| + |b| + |c|
  {
    if a != [] || b != [] || c != [] {
      assert From(a, 0) == a && From(b, 0) == b && From(c, 0) == c;
      assert Uniform(Head(a), Head(b), Head(c));
      SegFlips("", "");
      hide SegCompare, Uniform;
      SegTransitive(Head(a), Head(b), Head(c));
      forall i: nat ensures Uniform(Head(From(Tail(a), i)), Head(From(Tail(b), i)), Head(From(Tail(c), i))) {
        assert From(Tail(a), i) == From(a, i + 1) && From(Tail(b), i) == From(b, i + 1)
            && From(Tail(c), i) == From(c, i + 1);
      }
      if SegCompare(Head(a), Head(c)) == 0 {
        CompareIsTransitive(Tail(a), Tail(b), Tail(c));
      }
    }
  }

  // ----- exactly when it is an order -----

  /** The knot: by value m is at most n, yet as words n stands before z and z before m. */
  predicate Knot(m: string, n: string, z: string) {
    Numeric(m) && Numeric(n) && !Numeric(z) && Number(m) <= Number(n) && Before(n, z) && Before(z, m)
  }

  predicate AnyKnot(x: string, y: string, z: string) {
    Knot(x, y, z) || Knot(y, x, z) || Knot(x, z, y) || Knot(z, x, y) || Knot(y, z, x) || Knot(z, y, x)
  }

  predicate SegAtMost(x: string, y: string) {
    SegCompare(x, y) <= 0
  }

  /** All six transitivity laws on three things. */
  predicate Lawful(xy: bool, yx: bool, xz: bool, zx: bool, yz: bool, zy: bool) {
    && (xy && yz ==> xz) && (xz && zy ==> xy) && (yx && xz ==> yz)
    && (yz && zx ==> yx) && (zx && xy ==> zy) && (zy && yx ==> zx)
  }

  lemma WordOrder(x: string, y: string, z: string)
    ensures Before(x, y) && Before(y, z) ==> Before(x, z)
    ensures x == y <==> !Before(x, y) && !Before(y, x)
    ensures !(Before(x, y) && Before(y, x))
  {
    BeforeIsTotal(x, y);
    if Before(x, y) && Before(y, z) {
      BeforeIsTransitive(x, y, z);
    }
  }

  lemma WordOrders(x: string, y: string, z: string)
    ensures Before(x, y) && Before(y, z) ==> Before(x, z)
    ensures Before(x, z) && Before(z, y) ==> Before(x, y)
    ensures Before(y, x) && Before(x, z) ==> Before(y, z)
    ensures Before(y, z) && Before(z, x) ==> Before(y, x)
    ensures Before(z, x) && Before(x, y) ==> Before(z, y)
    ensures Before(z, y) && Before(y, x) ==> Before(z, x)
    ensures (x == y <==> !Before(x, y) && !Before(y, x)) && !(Before(x, y) && Before(y, x))
    ensures (x == z <==> !Before(x, z) && !Before(z, x)) && !(Before(x, z) && Before(z, x))
    ensures (y == z <==> !Before(y, z) && !Before(z, y)) && !(Before(y, z) && Before(z, y))
  {
    hide Before;
    WordOrder(x, y, z);
    WordOrder(x, z, y);
    WordOrder(y, x, z);
    WordOrder(y, z, x);
    WordOrder(z, x, y);
    WordOrder(z, y, x);
  }

  /** Three segments are ordered exactly when they hold no knot. */
  lemma SegmentsOrderedExactly(x: string, y: string, z: string)
    ensures Lawful(SegAtMost(x, y), SegAtMost(y, x), SegAtMost(x, z), SegAtMost(z, x), SegAtMost(y, z), SegAtMost(z, y))
            <==> !AnyKnot(x, y, z)
  {
    WordOrders(x, y, z);
    hide Number, Numeric, Before;
  }

  predicate AtMost(a: seq<string>, b: seq<string>) {
    Compare(a, b) <= 0
  }

  predicate SameHeads(a: seq<string>, b: seq<string>, c: seq<string>) {
    && SegCompare(Head(a), Head(b)) == 0 && SegCompare(Head(a), Head(c)) == 0 && SegCompare(Head(b), Head(c)) == 0
  }

  /** A knot of first segments that the rest of the versions does not undo: it does when
      the two numbers are equal and the rest of m's version is the greater. */
  predicate Tied(m: seq<string>, n: seq<string>, z: seq<string>) {
    Knot(Head(m), Head(n), Head(z)) && (Number(Head(m)) < Number(Head(n)) || Compare(Tail(m), Tail(n)) <= 0)
  }

  /** At the first place where three versions are not all equal there is such a knot. */
  predicate Knotted(a: seq<string>, b: seq<string>, c: seq<string>)
    decreases |a| + |b| + |c|
  {
    if a == [] && b == [] && c == [] then false
    else if SameHeads(a, b, c) then Knotted(Tail(a), Tail(b), Tail(c))
    else Tied(a, b, c) || Tied(b, a, c) || Tied(a, c, b) || Tied(c, a, b) || Tied(b, c, a) || Tied(c, b, a)
  }

  lemma CompareUnfolds(a: seq<string>, b: seq<string>)
    ensures Compare(a, b) == if SegCompare(Head(a), Head(b)) != 0 then SegCompare(Head(a), Head(b))
                             else Compare(Tail(a), Tail(b))
    ensures Sign(Compare(a, b)) == -Sign(Compare(b, a))
    ensures Sign(Compare(Tail(a), Tail(b))) == -Sign(Compare(Tail(b), Tail(a)))
    ensures Sign(SegCompare(Head(a), Head(b))) == -Sign(SegCompare(Head(b), Head(a)))
  {
    CompareFlips(a, b);
    CompareFlips(Tail(a), Tail(b));
    SegFlips(Head(a), Head(b));
    hide SegCompare;
  }

  /** Three versions are ordered exactly when they are not knotted. */
  lemma {:induction false} VersionsOrderedExactly(a: seq<string>, b: seq<string>, c: seq<string>)
    ensures Lawful(AtMost(a, b), AtMost(b, a), AtMost(a, c), AtMost(c, a), AtMost(b, c), AtMost(c, b))
            <==> !Knotted(a, b, c)
    decreases |a| + |b| + |c|
  {
    CompareUnfolds(a, b);
    CompareUnfolds(a, c);
    CompareUnfolds(b, c);
    if a == [] && b == [] && c == [] {
      NothingLeft();
    } else if SameHeads(a, b, c) {
      hide SegCompare, Compare, Knotted;
      VersionsOrderedExactly(Tail(a), Tail(b), Tail(c));
      assert Knotted(a, b, c) == Knotted(Tail(a), Tail(b), Tail(c)) by { KnottedUnfolds(a, b, c); }
    } else {
      WordOrders(Head(a), Head(b), Head(c));
      hide Compare, Number, Numeric, Before, Head, Tail;
    }
  }

  lemma KnottedUnfolds(a: seq<string>, b: seq<string>, c: seq<string>)
    requires (a != [] || b != [] || c != []) && SameHeads(a, b, c)
    ensures Knotted(a, b, c) == Knotted(Tail(a), Tail(b), Tail(c))
  {
    hide SameHeads;
  }

  predicate AllNumeric(a: seq<string>) {
    forall i :: 0 <= i < |a| ==> Numeric(a[i])
  }

  /** On dotted numbers of any lengths: a total preorder. */
  lemma DottedNumbersAreOrdered(a: seq<string>, b: seq<string>, c: seq<string>)
    requires AllNumeric(a) && AllNumeric(b) && AllNumeric(c)
    ensures Compare(a, b) <= 0 || Compare(b, a) <= 0
    ensures Compare(a, b) <= 0 && Compare(b, c) <= 0 ==> Compare(a, c) <= 0
  {
    CompareFlips(a, b);
    hide Compare, Numeric;
    forall i: nat ensures Uniform(Head(From(a, i)), Head(From(b, i)), Head(From(c, i))) {
    }
    if Compare(a, b) <= 0 && Compare(b, c) <= 0 {
      CompareIsTransitive(a, b, c);
    }
  }

  predicate SameNumbers(a: seq<string>, b: seq<string>)
    requires AllNumeric(a) && AllNumeric(b)
  {
    |a| == |b| && forall i :: 0 <= i < |a| ==> Number(a[i]) == Number(b[i])
  }

  lemma SameNumbersStep(a: seq<string>, b: seq<string>)
    requires AllNumeric(a) && AllNumeric(b) && a != [] && b != []
    ensures SameNumbers(a, b) <==> Number(a[0]) == Number(b[0]) && SameNumbers(a[1..], b[1..])
  {
    hide Number;
    if SameNumbers(a[1..], b[1..]) {
      forall i | 0 < i < |a| ensures Number(a[i]) == Number(b[i]) {
        assert Number(a[1..][i - 1]) == Number(b[1..][i - 1]);
      }
    }
  }

  /** Dotted numbers are equal exactly if they have as many parts, equal part by part:
      `1.0` and `1.0.0` are not. */
  lemma {:induction false} EqualNumbers(a: seq<string>, b: seq<string>)
    requires AllNumeric(a) && AllNumeric(b)
    ensures Compare(a, b) == 0 <==> |a| == |b| && forall i :: 0 <= i < |a| ==> Number(a[i]) == Number(b[i])
    decreases |a| + |b|
  {
    CompareUnfolds(a, b);
    assert !Numeric("");
    if a == [] && b == [] {
      NothingLeft();
    } else if a != [] && b != [] {
      assert Numeric(a[0]) && Numeric(b[0]);
      hide Number, Numeric, Compare;
      SameNumbersStep(a, b);
      EqualNumbers(a[1..], b[1..]);
      assert SameNumbers(a, b) <==> |a| == |b| && forall i :: 0 <= i < |a| ==> Number(a[i]) == Number(b[i]);
      assert Tail(a) == a[1..] && Tail(b) == b[1..];
    } else {
      assert a != [] ==> Numeric(a[0]);
      assert b != [] ==> Numeric(b[0]);
      hide Number, Numeric, Compare;
    }
  }

  /** With words among the numbers it is no order: 9 < 10, 10 < 1a and 1a < 9. */
  lemma MixedIsNotTransitive()
    ensures Compare(["9"], ["10"]) < 0 && Compare(["10"], ["1a"]) < 0 && Compare(["1a"], ["9"]) < 0
  {
    assert "10"[..1] == "1" && "1"[..0] == "" && "9"[..0] == "";
    assert Number("1") == 1 && Number("10") == 10 && Number("9") == 9;
    assert !IsDigit("1a"[1]) && !Numeric("1a");
    assert "10"[1..] == "0" && "1a"[1..] == "a";
    assert Before("0", "a") && Before("10", "1a") && Before("1a", "9");
  }

  // ----- renameVerGe -----

  function ParseDigits(x: string): nat {
    var n := DigitRun(x);
    Number(x[..n])
  }

  /** `Number.parseInt(x, 10) || 0` */
  function ParseInt(x: string): int {
    var s := TrimLeft(x, IsJsSpace);
    if s != [] && s[0] == '-' then 0 - ParseDigits(s[1..])
    else if s != [] && s[0] == '+' then ParseDigits(s[1..])
    else ParseDigits(s)
  }

  function Part(parts: seq<string>, i: nat): int {
    ParseInt(if i < |parts| then parts[i] else "0")
  }

  predicate IsDot(c: char) {
    c == '.'
  }

  method RenameVerGe(have: string, want: string) returns (ge: bool)
    ensures ge <==> VerGe(Split(have, IsDot), Split(want, IsDot))
  {
    var h, w := Split(have, IsDot), Split(want, IsDot);
    if Part(h, 0) != Part(w, 0) {
      return Part(h, 0) > Part(w, 0);
    }
    if Part(h, 1) != Part(w, 1) {
      return Part(h, 1) > Part(w, 1);
    }
    return Part(h, 2) >= Part(w, 2);
  }

  predicate VerGe(h: seq<string>, w: seq<string>) {
    || Part(h, 0) > Part(w, 0)
    || (Part(h, 0) == Part(w, 0) && (Part(h, 1) > Part(w, 1) || (Part(h, 1) == Part(w, 1) && Part(h, 2) >= Part(w, 2))))
  }

  lemma ParseNumeric(x: string)
    requires Numeric(x)
    ensures ParseInt(x) == Number(x)
  {
    assert IsDigit(x[0]);
    assert TrimLeft(x, IsJsSpace) == x;
    assert x + "" == x;
    DigitRunStops(x, "");
    assert x[..|x|] == x;
    hide Number;
  }

  /** What is read of a part: its leading blanks and its sign are passed over, the digits
      that follow are the number, which may be none for zero, and the sign counts. */
  lemma ParseIntReads(blanks: string, sign: string, digits: string, rest: string)
    requires AllIn(blanks, IsJsSpace) && AllDigits(digits) && sign in ["", "+", "-"]
    requires rest != "" ==> !IsDigit(rest[0])
    requires rest != "" && digits == "" && sign == "" ==> !IsJsSpace(rest[0]) && rest[0] !in "+-"
    ensures var n: int := Number(digits);
            ParseInt(blanks + (sign + (digits + rest))) == if sign == "-" then -n else n
  {
    var t := digits + rest;
    var s := sign + t;
    hide Number;
    assert t != "" ==> t[0] == if digits != "" then digits[0] else rest[0];
    assert digits != "" ==> IsDigit(digits[0]);
    if sign == "" {
      assert s == t;
    } else {
      assert s[0] == sign[0] && s[1..] == t;
    }
    TrimLeftDrops(blanks, s, IsJsSpace);
    DigitRunStops(digits, rest);
    assert t[..|digits|] == digits;
  }

  function Dotted(x: string, y: string, z: string): string {
    x + "." + (y + "." + z)
  }

  lemma SplitDotted(x: string, y: string, z: string, sep: char -> bool)
    requires Numeric(x) && Numeric(y) && Numeric(z) && sep('.')
    requires forall c :: sep(c) ==> !IsDigit(c)
    ensures Split(Dotted(x, y, z), sep) == [x, y, z]
  {
    hide Split;
    SplitNone(z, sep);
    SplitAt(y, '.', z, sep);
    SplitAt(x, '.', y + "." + z, sep);
  }

  lemma Parts(a: seq<string>, k: nat)
    requires AllNumeric(a)
    ensures Part(a, k) == if k < |a| then Number(a[k]) else 0
  {
    assert Numeric("0") && Number("0") == 0 by { assert "0"[..0] == ""; }
    ParseNumeric(if k < |a| then a[k] else "0");
    hide Number, ParseInt, Numeric;
  }

  /** What place k decides between m and n parts: p against q, or the places after it. */
  function Decided(k: nat, m: nat, n: nat, p: int, q: int, rest: int): int {
    if k >= m && k >= n then 0
    else if k >= m then -1
    else if k >= n then 1
    else if p != q then p - q
    else rest
  }

  lemma PlaceDecides(a: seq<string>, b: seq<string>, k: nat)
    requires AllNumeric(a) && AllNumeric(b)
    ensures Compare(From(a, k), From(b, k))
            == Decided(k, |a|, |b|, Part(a, k), Part(b, k), Compare(From(a, k + 1), From(b, k + 1)))
  {
    NothingLeft();
    assert !Numeric("");
    hide Number, ParseInt, Compare;
    Parts(a, k);
    Parts(b, k);
    if k < |a| || k < |b| {
      CompareStep(a, b, k);
    } else {
      assert From(a, k) == [] && From(b, k) == [];
    }
  }

  lemma ThreePlaces(m: nat, n: nat, p0: nat, p1: nat, p2: nat, q0: nat, q1: nat, q2: nat, rest: int)
    requires (m <= 0 ==> p0 == 0) && (m <= 1 ==> p1 == 0) && (m <= 2 ==> p2 == 0)
    requires (n <= 0 ==> q0 == 0) && (n <= 1 ==> q1 == 0) && (n <= 2 ==> q2 == 0)
    ensures var c := Decided(0, m, n, p0, q0, Decided(1, m, n, p1, q1, Decided(2, m, n, p2, q2, rest)));
            (p0 > q0 || (p0 == q0 && (p1 > q1 || (p1 == q1 && p2 >= q2))) <==> c >= 0)
            <==> !(p0 == q0 && p1 == q1 && p2 == q2 && if m >= 3 && n >= 3 then rest < 0 else m < n)
  {
  }

  lemma ComparePlaces(a: seq<string>, b: seq<string>)
    requires AllNumeric(a) && AllNumeric(b)
    ensures Compare(a, b) == Decided(0, |a|, |b|, Part(a, 0), Part(b, 0),
                               Decided(1, |a|, |b|, Part(a, 1), Part(b, 1),
                                 Decided(2, |a|, |b|, Part(a, 2), Part(b, 2), Compare(From(a, 3), From(b, 3)))))
  {
    assert From(a, 0) == a && From(b, 0) == b;
    hide AllNumeric, Number, Compare, Part, From, Decided;
    PlaceDecides(a, b, 0);
    PlaceDecides(a, b, 1);
    PlaceDecides(a, b, 2);
  }

  /** The two comparisons of dotted numbers part company exactly when the first three
      parts, a missing one taken for 0, are equal, and what decides comes after them: the
      parts from the fourth on if both have three, the number of parts if not. */
  lemma AgreementIsExact(a: seq<string>, b: seq<string>)
    requires AllNumeric(a) && AllNumeric(b)
    ensures (VerGe(a, b) <==> Compare(a, b) >= 0)
            <==> !(Part(a, 0) == Part(b, 0) && Part(a, 1) == Part(b, 1) && Part(a, 2) == Part(b, 2)
                   && if |a| >= 3 && |b| >= 3 then Compare(From(a, 3), From(b, 3)) < 0 else |a| < |b|)
  {
    hide AllNumeric, Number, Compare, Part, From, Decided;
    AbsentPart(a, 0);
    AbsentPart(a, 1);
    AbsentPart(a, 2);
    AbsentPart(b, 0);
    AbsentPart(b, 1);
    AbsentPart(b, 2);
    ComparePlaces(a, b);
    ThreePlaces(|a|, |b|, Part(a, 0), Part(a, 1), Part(a, 2), Part(b, 0), Part(b, 1), Part(b, 2),
                Compare(From(a, 3), From(b, 3)));
  }

  lemma AbsentPart(a: seq<string>, k: nat)
    requires AllNumeric(a)
    ensures Part(a, k) >= 0 && (k >= |a| ==> Part(a, k) == 0)
  {
    hide Number, ParseInt, Numeric, Part;
    Parts(a, k);
  }

  lemma {:induction false} SplitsAgree(s: string)
    requires '-' !in s && '+' !in s
    ensures Split(s, IsSep) == Split(s, IsDot)
  {
    if s != [] {
      SplitsAgree(s[1..]);
      assert s[0] in s;
    }
  }

  /** The same of version texts that hold no `-` or `+`. */
  lemma TextsAgreeExactly(have: string, want: string)
    requires '-' !in have && '+' !in have && '-' !in want && '+' !in want
    requires AllNumeric(Split(have, IsDot)) && AllNumeric(Split(want, IsDot))
    ensures var h, w := Split(have, IsDot), Split(want, IsDot);
            (VerGe(h, w) <==> Compare(Split(have, IsSep), Split(want, IsSep)) >= 0)
            <==> !(Part(h, 0) == Part(w, 0) && Part(h, 1) == Part(w, 1) && Part(h, 2) == Part(w, 2)
                   && if |h| >= 3 && |w| >= 3 then Compare(From(h, 3), From(w, 3)) < 0 else |h| < |w|)
  {
    hide Split, AllNumeric, Part, Compare, From, VerGe;
    SplitsAgree(have);
    SplitsAgree(want);
    AgreementIsExact(Split(have, IsDot), Split(want, IsDot));
  }

  /** On three-part numeric versions the two comparisons agree. */
  lemma TheTwoAgree(x: string, y: string, z: string, u: string, v: string, w: string)
    requires Numeric(x) && Numeric(y) && Numeric(z) && Numeric(u) && Numeric(v) && Numeric(w)
    ensures VerGe(Split(Dotted(x, y, z), IsDot), Split(Dotted(u, v, w), IsDot))
            <==> Compare(Split(Dotted(x, y, z), IsSep), Split(Dotted(u, v, w), IsSep)) >= 0
  {
    hide Split, Number, Numeric, Compare, Dotted, VerGe;
    SplitDotted(x, y, z, IsDot);
    SplitDotted(u, v, w, IsDot);
    SplitDotted(x, y, z, IsSep);
    SplitDotted(u, v, w, IsSep);
    assert [x, y, z][3..] == [] && [u, v, w][3..] == [];
    NothingLeft();
    AgreementIsExact([x, y, z], [u, v, w]);
  }

  /** On fewer parts they do not: a missing part is 0 to one and less than 0 to the
      other. */
  lemma ShortVersionsDiffer()
    ensures VerGe(["1"], ["1", "0"]) && Compare(["1"], ["1", "0"]) < 0
  {
    assert Numeric("1") && Numeric("0") && !Numeric("");
    ParseNumeric("1");
    ParseNumeric("0");
    assert Tail(["1"]) == [] && Tail(["1", "0"]) == ["0"];
    assert Before("", "0");
    hide ParseInt;
  }
}
