/** The rollout engine (fleet/src/upgrade.ts): verify one deployed box, deploy one box,
    and the canary-first pass over all of them. What the remote side answers is
    arbitrary. */
module Upgrade {
  import opened Wrappers
  import opened Text

  // ----- the install log's marker (fleet/src/remote.ts:74-82) -----

  const MARK := "DONE (rc="

  predicate DoneAt(s: string, i: nat) {
    && i + |MARK| <= |s| && s[i..i + |MARK|] == MARK
    && var n := DigitRun(s[i + |MARK|..]);
       n > 0 && i + |MARK| + n < |s| && s[i + |MARK| + n] == ')'
  }

  function DoneEnd(s: string, i: nat): (end: nat)
    requires DoneAt(s, i)
    ensures i < end <= |s|
  {
    i + |MARK| + DigitRun(s[i + |MARK|..]) + 1
  }

  function DoneRc(s: string, i: nat): nat
    requires DoneAt(s, i)
  {
    var rest := s[i + |MARK|..];
    Number(rest[..DigitRun(rest)])
  }

  /** The code of the last marker that starts before `k`. */
  function LastDone(s: string, k: nat): Option<nat> {
    if k == 0 then None else if DoneAt(s, k - 1) then Some(DoneRc(s, k - 1)) else LastDone(s, k - 1)
  }

  lemma DoneBodyHasNoD(s: string, i: nat, j: nat)
    requires DoneAt(s, i) && i < j < DoneEnd(s, i)
    ensures s[j] != 'D'
  {
    var rest := s[i + |MARK|..];
    assert MARK == ['D', 'O', 'N', 'E', ' ', '(', 'r', 'c', '='];
    if j < i + |MARK| {
      assert s[i..i + |MARK|][j - i] == s[j];
    } else {
      assert rest[j - i - |MARK|] == s[j];
    }
  }

  lemma DoneStartsWithD(s: string, i: nat)
    requires DoneAt(s, i)
    ensures s[i] == 'D'
  {
    assert MARK[0] == 'D' && s[i..i + |MARK|][0] == s[i];
  }

  lemma {:induction false} NothingInside(s: string, i: nat, k: nat)
    requires DoneAt(s, i) && i < k <= DoneEnd(s, i)
    ensures LastDone(s, k) == Some(DoneRc(s, i))
  {
    hide DoneAt, DoneRc, DoneEnd;
    if k > i + 1 {
      DoneBodyHasNoD(s, i, k - 1);
      if DoneAt(s, k - 1) {
        DoneStartsWithD(s, k - 1);
      }
      NothingInside(s, i, k - 1);
    }
  }

  /** The repeated regular-expression search: it resumes after each match, and no
      marker can start inside another. */
  method MatchDoneRc(s: string) returns (last: Option<nat>)
    ensures last == LastDone(s, |s|)
  {
    hide DoneAt, DoneRc, DoneEnd;
    last := None;
    var i := 0;
    while i < |s|
      invariant 0 <= i <= |s| && last == LastDone(s, i)
    {
      if DoneAt(s, i) {
        last := Some(DoneRc(s, i));
        NothingInside(s, i, DoneEnd(s, i));
        i := DoneEnd(s, i);
      } else {
        i := i + 1;
      }
    }
  }

  lemma {:induction false} LastDoneSkips(s: string, i: nat, k: nat)
    requires DoneAt(s, i) && i < k && forall j :: i < j < k ==> !DoneAt(s, j)
    ensures LastDone(s, k) == Some(DoneRc(s, i))
  {
    hide DoneAt, DoneRc;
    if k > i + 1 {
      LastDoneSkips(s, i, k - 1);
    }
  }

  lemma MarkerStands(s: string, i: nat, digits: string, rest: string)
    requires i + |MARK| <= |s| && s[i..i + |MARK|] == MARK && s[i + |MARK|..] == digits + rest
    requires digits != [] && AllDigits(digits)
    requires rest != [] && rest[0] == ')'
    ensures DoneAt(s, i) && DoneRc(s, i) == Number(digits)
  {
    DigitRunStops(digits, rest);
    assert (digits + rest)[..|digits|] == digits;
    assert (digits + rest)[|digits|] == ')';
    hide Number;
  }

  /** A marker that the installer wrote, with no other after it, is read back. */
  lemma WrittenMarkerIsRead(before: string, rc: nat, after: string)
    requires var s := before + MARK + Decimal(rc) + ")" + after;
             forall j :: |before| < j < |s| ==> !DoneAt(s, j)
    ensures var s := before + MARK + Decimal(rc) + ")" + after;
            LastDone(s, |s|) == Some(rc)
  {
    var s := before + MARK + Decimal(rc) + ")" + after;
    hide DoneAt, DoneRc, Number, LastDone, Decimal;
    NumberOfDecimal(rc);
    assert s[|before|..|before| + |MARK|] == MARK;
    assert s[|before| + |MARK|..] == Decimal(rc) + (")" + after);
    MarkerStands(s, |before|, Decimal(rc), ")" + after);
    LastDoneSkips(s, |before|, |s|);
  }

  /** At place i: the mark, then n digits that are the number rc, then a closing parenthesis. */
  predicate WrittenAs(s: string, i: nat, n: nat, rc: nat) {
    var at := i + |MARK|;
    && n > 0 && at + n < |s| && s[i..at] == MARK && s[at + n] == ')'
    && AllDigits(s[at..at + n]) && Number(s[at..at + n]) == rc
  }

  lemma MarkerIsWritten(s: string, i: nat, n: nat, rc: nat)
    ensures WrittenAs(s, i, n, rc) ==> DoneAt(s, i) && DoneRc(s, i) == rc
    ensures DoneAt(s, i) ==> WrittenAs(s, i, DigitRun(s[i + |MARK|..]), DoneRc(s, i))
  {
    if WrittenAs(s, i, n, rc) {
      var at := i + |MARK|;
      var digits, rest := s[at..at + n], s[at + n..];
      assert s[at..] == digits + rest && rest[0] == ')';
      MarkerStands(s, i, digits, rest);
    }
    if DoneAt(s, i) {
      hide Number;
      var at := i + |MARK|;
      var m := DigitRun(s[at..]);
      assert s[at..][..m] == s[at..at + m];
    }
  }

  lemma {:induction false} LastDoneIs(s: string, k: nat)
    ensures LastDone(s, k).None? <==> forall i: nat :: i < k ==> !DoneAt(s, i)
    ensures LastDone(s, k).Some? ==>
              exists i: nat :: i < k && DoneAt(s, i) && LastDone(s, k) == Some(DoneRc(s, i))
                               && forall j: nat :: i < j < k ==> !DoneAt(s, j)
  {
    hide DoneAt, DoneRc;
    if k > 0 && !DoneAt(s, k - 1) {
      LastDoneIs(s, k - 1);
    }
  }

  /** What is read off a log, for every log: nothing if no marker is written in it, and
      otherwise the number of the marker that starts last. */
  lemma CodeIsOfTheLastMarker(s: string)
    ensures LastDone(s, |s|).None? <==> forall i: nat, n: nat, rc: nat :: !WrittenAs(s, i, n, rc)
    ensures LastDone(s, |s|).Some? ==>
              exists i: nat, n: nat :: WrittenAs(s, i, n, LastDone(s, |s|).value)
                                       && forall j: nat, m: nat, rc: nat :: WrittenAs(s, j, m, rc) ==> j <= i
  {
    hide DoneAt, DoneRc, LastDone, Number;
    LastDoneIs(s, |s|);
    forall i: nat, n: nat, rc: nat | WrittenAs(s, i, n, rc) ensures i < |s| && DoneAt(s, i) {
      MarkerIsWritten(s, i, n, rc);
    }
    if LastDone(s, |s|).Some? {
      var i: nat :| i < |s| && DoneAt(s, i) && LastDone(s, |s|) == Some(DoneRc(s, i))
                    && forall j: nat :: i < j < |s| ==> !DoneAt(s, j);
      MarkerIsWritten(s, i, 0, 0);
      assert WrittenAs(s, i, DigitRun(s[i + |MARK|..]), LastDone(s, |s|).value);
    }
  }

  // ----- verifying one box -----

  datatype Class = Fine | Killed | Transport | Remote

  function Classify(code: Option<int>): Class {
    if code == Some(0) then Fine else if code == None then Killed else if code == Some(255) then Transport else Remote
  }

  predicate Lost(code: Option<int>) {
    Classify(code) == Transport || Classify(code) == Killed
  }

  /** One read of the install log, and one `boxup check` as parsed. */
  datatype Poll = Poll(code: Option<int>, stdout: string)
  datatype Check = Check(code: Option<int>, ok: bool, sha: Option<string>)

  function Marker(p: Poll): Option<nat> {
    if Lost(p.code) then None else LastDone(p.stdout, |p.stdout|)
  }

  predicate Passes(c: Check, sha: string) {
    !Lost(c.code) && c.ok && c.sha == Some(sha)
  }

  /** What a box answers, read by read. */
  datatype Answers = Answers(polls: nat -> Poll, checks: nat -> Check)

  ghost predicate FirstMarker(a: Answers, tries: nat, i: nat) {
    i < tries && Marker(a.polls(i)).Some? && forall j: nat :: j < i ==> Marker(a.polls(j)).None?
  }

  predicate PassTwice(a: Answers, sha: string, k: nat) {
    Passes(a.checks(k), sha) && Passes(a.checks(k + 1), sha)
  }

  /** Verified: the first marker within the tries says 0, and then two adjacent
      checks within the tries both pass with the target's sha. */
  ghost predicate Verified(a: Answers, tries: nat, sha: string) {
    && (exists i: nat :: FirstMarker(a, tries, i) && Marker(a.polls(i)) == Some(0))
    && (exists k: nat :: k + 1 < tries && PassTwice(a, sha, k))
  }

  datatype Verdict = Ok | NoMarker | InstallFailed(rc: nat) | ShaMismatch

  /** Phase 1: the first marker within the tries. */
  method AwaitMarker(a: Answers, tries: nat) returns (done: Option<nat>, polled: nat)
    ensures polled <= tries
    ensures done.Some? ==> polled > 0 && FirstMarker(a, tries, polled - 1) && Marker(a.polls(polled - 1)) == done
    ensures done.None? ==> polled == tries && forall i: nat :: i < tries ==> Marker(a.polls(i)).None?
  {
    polled := 0;
    while polled < tries
      invariant polled <= tries && forall i: nat :: i < polled ==> Marker(a.polls(i)).None?
    {
      var r := a.polls(polled);
      polled := polled + 1;
      if Lost(r.code) {
        continue;
      }
      var rc := MatchDoneRc(r.stdout);
      if rc.Some? {
        return rc, polled;
      }
    }
    return None, polled;
  }

  /** Phase 2: two passes in a row; a failure or a lost poll starts over. */
  method AwaitTwoPasses(a: Answers, tries: nat, sha: string) returns (ok: bool, checked: nat)
    ensures checked <= tries
    ensures ok <==> exists k: nat :: k + 1 < tries && PassTwice(a, sha, k)
    ensures ok ==> checked >= 2 && PassTwice(a, sha, checked - 2)
    ensures forall k: nat :: k + 2 < checked ==> !PassTwice(a, sha, k)
  {
    var consecutive := 0;
    checked := 0;
    while checked < tries
      invariant checked <= tries && 0 <= consecutive <= 1
      invariant consecutive == 1 <==> checked > 0 && Passes(a.checks(checked - 1), sha)
      invariant forall k: nat :: k + 1 < checked ==> !PassTwice(a, sha, k)
    {
      var c := a.checks(checked);
      checked := checked + 1;
      if Lost(c.code) {
        consecutive := 0;
        continue;
      }
      if c.ok && c.sha == Some(sha) {
        consecutive := consecutive + 1;
        if consecutive >= 2 {
          assert PassTwice(a, sha, checked - 2);
          return true, checked;
        }
      } else {
        consecutive := 0;
      }
    }
    return false, checked;
  }

  method VerifyBox(a: Answers, tries: nat, sha: string) returns (v: Verdict, used: nat)
    ensures v == Ok <==> Verified(a, tries, sha)
    ensures v == NoMarker <==> forall i: nat :: i < tries ==> Marker(a.polls(i)).None?
    ensures v.InstallFailed? ==> v.rc != 0
    ensures forall rc: nat :: v == InstallFailed(rc) ==>
            exists i: nat :: FirstMarker(a, tries, i) && Marker(a.polls(i)) == Some(rc)
    ensures used <= 2 * tries
  {
    var done, polled := AwaitMarker(a, tries);
    if done.None? {
      return NoMarker, polled;
    }
    FirstMarkerIsUnique(a, tries, polled - 1);
    if done.value != 0 {
      return InstallFailed(done.value), polled;
    }
    var ok, checked := AwaitTwoPasses(a, tries, sha);
    return if ok then Ok else ShaMismatch, polled + checked;
  }

  lemma FirstMarkerIsUnique(a: Answers, tries: nat, i: nat)
    requires FirstMarker(a, tries, i)
    ensures forall j: nat :: FirstMarker(a, tries, j) ==> j == i
  {
    forall j: nat | FirstMarker(a, tries, j) ensures j == i {
      assert Marker(a.polls(i)).Some? && Marker(a.polls(j)).Some?;
    }
  }

  // ----- deploying one box -----

  datatype Attempt = Attempt(scp: Option<int>, install: Option<int>, answers: Answers)

  datatype Target = Target(version: string, sha: string)

  /** Copied, not refused by the box, and verified: a lost install connection is no
      failure by itself. */
  ghost predicate Succeeds(d: Attempt, tries: nat, sha: string) {
    d.scp == Some(0) && Classify(d.install) != Remote && Verified(d.answers, tries, sha)
  }

  /** The box itself answered: the command was not killed, and its code is not ssh's own 255. */
  predicate Answered(code: Option<int>) {
    code.Some? && code.value != 255
  }

  function CodeRead(p: Poll): Option<nat> {
    if Answered(p.code) then LastDone(p.stdout, |p.stdout|) else None
  }

  predicate Matches(c: Check, sha: string) {
    Answered(c.code) && c.ok && c.sha == Some(sha)
  }

  ghost predicate FirstCodeIsZero(a: Answers, tries: nat, i: nat) {
    i < tries && CodeRead(a.polls(i)) == Some(0) && forall j: nat :: j < i ==> CodeRead(a.polls(j)).None?
  }

  /** A deploy succeeds exactly if the copy did; the install exited 0, was killed or lost its
      connection; the first code that a poll reads within the tries is 0; and within the tries
      two checks in a row are answered by a healthy box with the target's sha. */
  lemma SuccessMeans(d: Attempt, tries: nat, sha: string)
    ensures Succeeds(d, tries, sha)
            <==> && d.scp == Some(0) && d.install in [Some(0), None, Some(255)]
                 && (exists i: nat :: FirstCodeIsZero(d.answers, tries, i))
                 && exists k: nat :: k + 1 < tries && Matches(d.answers.checks(k), sha)
                                     && Matches(d.answers.checks(k + 1), sha)
  {
    var a := d.answers;
    hide LastDone;
    forall i: nat ensures FirstMarker(a, tries, i) && Marker(a.polls(i)) == Some(0) <==> FirstCodeIsZero(a, tries, i) {
    }
    forall k: nat
      ensures PassTwice(a, sha, k) <==> Matches(a.checks(k), sha) && Matches(a.checks(k + 1), sha)
    {
    }
  }

  method DeployBox(d: Attempt, tries: nat, sha: string) returns (ok: bool)
    ensures ok <==> Succeeds(d, tries, sha)
  {
    if d.scp != Some(0) {
      return false;
    }
    if Classify(d.install) == Remote {
      return false;
    }
    var v, _ := VerifyBox(d.answers, tries, sha);
    return v == Ok;
  }

  // ----- the plan -----

  datatype Action = Deploy | InSync | TunnelDown

  datatype Probe = Probe(up: bool, version: string, sha: string)

  datatype Row = Row(box: string, probe: Probe, action: Action)

  predicate Known(version: string) {
    version != "-" && version != "?" && version != "unknown"
  }

  function ActionFor(p: Probe, target: Target): Action {
    if !p.up then TunnelDown
    else if Known(p.version) && target.version != "unknown" && p.version == target.version then InSync
    else Deploy
  }

  ghost predicate PlanOf(plan: seq<Row>, boxes: seq<string>, probes: nat -> Probe, target: Target) {
    |plan| == |boxes| && forall i: nat :: i < |boxes| ==>
        plan[i] == Row(boxes[i], probes(i), ActionFor(probes(i), target))
  }

  method BuildPlan(boxes: seq<string>, probes: nat -> Probe, target: Target) returns (plan: seq<Row>)
    ensures PlanOf(plan, boxes, probes, target)
  {
    plan := [];
    for i := 0 to |boxes|
      invariant PlanOf(plan, boxes[..i], probes, target)
    {
      plan := plan + [Row(boxes[i], probes(i), ActionFor(probes(i), target))];
    }
    assert boxes[..|boxes|] == boxes;
  }

  /** The first row of a box. */
  function RowOf(plan: seq<Row>, box: string): (r: Row)
    requires exists i :: 0 <= i < |plan| && plan[i].box == box
    ensures r in plan && r.box == box
  {
    if plan[0].box == box then plan[0] else RowOf(plan[1..], box)
  }

  // ----- canary first -----

  function Without(boxes: seq<string>, box: string): seq<string> {
    if boxes == [] then []
    else (if boxes[0] == box then [] else [boxes[0]]) + Without(boxes[1..], box)
  }

  function OrderForApply(boxes: seq<string>, canary: Option<string>): seq<string> {
    if canary.None? || canary.value == "" || canary.value !in boxes then boxes
    else [canary.value] + Without(boxes, canary.value)
  }

  lemma {:induction false} WithoutKeepsTheRest(boxes: seq<string>, box: string)
    ensures multiset(Without(boxes, box)) == multiset(boxes)[box := 0]
  {
    if boxes != [] {
      WithoutKeepsTheRest(boxes[1..], box);
      assert boxes == [boxes[0]] + boxes[1..];
    }
  }

  /** The order is a permutation of the targets exactly when a canary among them is
      named once; a canary named twice is deployed once. */
  lemma OrderIsPermutation(boxes: seq<string>, canary: Option<string>)
    ensures multiset(OrderForApply(boxes, canary)) == multiset(boxes)
            <==> canary.None? || canary.value == "" || multiset(boxes)[canary.value] <= 1
    ensures forall b :: b in OrderForApply(boxes, canary) <==> b in boxes
    ensures canary.Some? && canary.value != "" && canary.value in boxes ==>
            OrderForApply(boxes, canary)[0] == canary.value
  {
    if canary.Some? && canary.value != "" && canary.value in boxes {
      var c := canary.value;
      WithoutKeepsTheRest(boxes, c);
      var order := [c] + Without(boxes, c);
      assert multiset(order) == multiset{c} + multiset(boxes)[c := 0];
      assert multiset(boxes)[c] >= 1;
      assert multiset(order)[c] == 1;
      forall b ensures b in order <==> b in boxes {
        assert b in order <==> b in multiset(order);
        assert b in boxes <==> b in multiset(boxes);
      }
      if multiset(boxes)[c] == 1 {
        assert multiset(order) == multiset(boxes);
      }
    } else if canary.Some? && canary.value !in boxes {
      assert multiset(boxes)[canary.value] == 0;
    }
  }

  // ----- the pass -----

  datatype Outcome = Good(box: string) | Failed(box: string) | Skipped(box: string, why: Action) | Aborted(box: string)

  /** Everything the pass depends on; `attempts(i)` is what would happen at place i. */
  datatype Pass = Pass(plan: seq<Row>, order: seq<string>, canary: Option<string>, tries: nat, sha: string,
      attempts: nat -> Attempt)

  ghost predicate Ready(p: Pass) {
    forall k :: 0 <= k < |p.order| ==> exists i :: 0 <= i < |p.plan| && p.plan[i].box == p.order[k]
  }

  function ActionAt(p: Pass, i: nat): Action
    requires Ready(p) && i < |p.order|
  {
    RowOf(p.plan, p.order[i]).action
  }

  /** What the outcome at a place has to be. */
  ghost predicate OutcomeAt(p: Pass, i: nat, o: Outcome)
    requires Ready(p) && i < |p.order|
  {
    var box := p.order[i];
    match ActionAt(p, i)
    case TunnelDown => o == if p.canary == Some(box) then Aborted(box) else Skipped(box, TunnelDown)
    case InSync => o == Skipped(box, InSync)
    case Deploy => o == if Succeeds(p.attempts(i), p.tries, p.sha) then Good(box) else Failed(box)
  }

  predicate Bad(o: Outcome) {
    o.Failed? || o.Aborted?
  }

  /** The outcomes are those of the first places of the order; only the last may be a
      failure or an abort, and the pass stops short of the end only after one. */
  ghost predicate RolledOut(p: Pass, outcomes: seq<Outcome>)
    requires Ready(p)
  {
    && |outcomes| <= |p.order|
    && (forall i :: 0 <= i < |outcomes| ==> OutcomeAt(p, i, outcomes[i]))
    && (forall i :: 0 <= i < |outcomes| - 1 ==> !Bad(outcomes[i]))
    && (|outcomes| < |p.order| ==> outcomes != [] && Bad(outcomes[|outcomes| - 1]))
  }

  lemma {:induction false} RolloutIsDetermined(p: Pass, a: seq<Outcome>, b: seq<Outcome>)
    requires Ready(p) && RolledOut(p, a) && RolledOut(p, b)
    ensures a == b
  {
    hide ActionAt, Succeeds;
    forall i | 0 <= i < |a| && i < |b| ensures a[i] == b[i] {
      assert OutcomeAt(p, i, a[i]) && OutcomeAt(p, i, b[i]);
    }
  }

  function Count(outcomes: seq<Outcome>, f: Outcome -> bool): nat {
    if outcomes == [] then 0 else Count(outcomes[..|outcomes| - 1], f) + if f(outcomes[|outcomes| - 1]) then 1 else 0
  }

  lemma CountAdds(outcomes: seq<Outcome>, o: Outcome, f: Outcome -> bool)
    ensures Count(outcomes + [o], f) == Count(outcomes, f) + if f(o) then 1 else 0
  {
    assert (outcomes + [o])[..|outcomes|] == outcomes;
  }

  /** The apply loop. */
  method RollOut(p: Pass) returns (outcomes: seq<Outcome>, good: nat, skipped: nat, failed: nat, aborted: bool)
    requires Ready(p)
    ensures RolledOut(p, outcomes)
    ensures good == Count(outcomes, (o: Outcome) => o.Good?)
    ensures skipped == Count(outcomes, (o: Outcome) => o.Skipped?)
    ensures failed > 0 || aborted <==> exists i :: 0 <= i < |outcomes| && Bad(outcomes[i])
    ensures failed <= 1
  {
    hide Succeeds, Ready, ActionAt;
    var isGood, isSkipped := (o: Outcome) => o.Good?, (o: Outcome) => o.Skipped?;
    outcomes, good, skipped, failed, aborted := [], 0, 0, 0, false;
    for i := 0 to |p.order|
      invariant |outcomes| == i && failed == 0 && !aborted
      invariant forall k :: 0 <= k < i ==> OutcomeAt(p, k, outcomes[k]) && !Bad(outcomes[k])
      invariant good == Count(outcomes, isGood) && skipped == Count(outcomes, isSkipped)
    {
      var box := p.order[i];
      var o;
      match ActionAt(p, i) {
      case TunnelDown =>
        if p.canary == Some(box) {
          o := Aborted(box);
          aborted := true;
        } else {
          o := Skipped(box, TunnelDown);
          skipped := skipped + 1;
        }
      case InSync =>
        o := Skipped(box, InSync);
        skipped := skipped + 1;
      case Deploy =>
        var ok := DeployBox(p.attempts(i), p.tries, p.sha);
        if ok {
          o := Good(box);
          good := good + 1;
        } else {
          o := Failed(box);
          failed := failed + 1;
        }
      }
      CountAdds(outcomes, o, isGood);
      CountAdds(outcomes, o, isSkipped);
      outcomes := outcomes + [o];
      if Bad(o) {
        assert Bad(outcomes[i]);
        return;
      }
    }
  }

  /** The canary goes first. If its tunnel is down nothing is deployed; if it is
      deployed, no other box is before the canary verified, and none at all if it
      fails. A canary already in sync gates nothing. */
  lemma CanaryGates(p: Pass, boxes: seq<string>, outcomes: seq<Outcome>)
    requires Ready(p) && p.order == OrderForApply(boxes, p.canary) && RolledOut(p, outcomes)
    requires p.canary.Some? && p.canary.value != "" && p.canary.value in boxes
    ensures ActionAt(p, 0) == TunnelDown ==> outcomes == [Aborted(p.canary.value)]
    ensures ActionAt(p, 0) == Deploy && !Succeeds(p.attempts(0), p.tries, p.sha) ==>
            outcomes == [Failed(p.canary.value)]
    ensures forall i :: 0 < i < |outcomes| && (outcomes[i].Good? || outcomes[i].Failed?) ==>
              ActionAt(p, 0) == InSync || (ActionAt(p, 0) == Deploy && Succeeds(p.attempts(0), p.tries, p.sha))
  {
    OrderIsPermutation(boxes, p.canary);
    assert p.order[0] == p.canary.value;
    hide Succeeds, ActionAt, OrderForApply, Ready;
    assert outcomes != [];
    assert OutcomeAt(p, 0, outcomes[0]);
    assert Bad(outcomes[0]) ==> |outcomes| == 1;
  }

  // ----- what the pass leaves on record -----

  datatype Entry = Entry(box: string, outcome: Option<Outcome>, sha: Option<string>)

  /** The last outcome of a box, as a map built from the list gives it. */
  function OutcomeOf(outcomes: seq<Outcome>, box: string): Option<Outcome> {
    if outcomes == [] then None
    else if outcomes[|outcomes| - 1].box == box then Some(outcomes[|outcomes| - 1])
    else OutcomeOf(outcomes[..|outcomes| - 1], box)
  }

  function ProbeOf(plan: seq<Row>, box: string): Option<Probe> {
    if plan == [] then None
    else if plan[|plan| - 1].box == box then Some(plan[|plan| - 1].probe)
    else ProbeOf(plan[..|plan| - 1], box)
  }

  function EntryFor(box: string, plan: seq<Row>, outcomes: seq<Outcome>, sha: string): Entry {
    var o := OutcomeOf(outcomes, box);
    var p := ProbeOf(plan, box);
    var running := if p.Some? && p.value.sha != "-" && p.value.sha != "?" then Some(p.value.sha) else None;
    Entry(box, o, if o.Some? && o.value.Good? then Some(sha) else running)
  }

  method RecordApplyOutcomes(boxes: seq<string>, plan: seq<Row>, outcomes: seq<Outcome>, sha: string)
      returns (entries: seq<Entry>)
    ensures |entries| == |boxes| && forall i :: 0 <= i < |boxes| ==>
            entries[i] == EntryFor(boxes[i], plan, outcomes, sha)
  {
    var byBox: map<string, Outcome> := map[];
    for i := 0 to |outcomes|
      invariant forall b :: (if b in byBox then Some(byBox[b]) else None) == OutcomeOf(outcomes[..i], b)
    {
      assert outcomes[..i + 1][..i] == outcomes[..i];
      byBox := byBox[outcomes[i].box := outcomes[i]];
    }
    assert outcomes[..|outcomes|] == outcomes;
    var probes: map<string, Probe> := map[];
    for i := 0 to |plan|
      invariant forall b :: (if b in probes then Some(probes[b]) else None) == ProbeOf(plan[..i], b)
    {
      assert plan[..i + 1][..i] == plan[..i];
      probes := probes[plan[i].box := plan[i].probe];
    }
    assert plan[..|plan|] == plan;
    entries := [];
    for i := 0 to |boxes|
      invariant |entries| == i && forall k :: 0 <= k < i ==> entries[k] == EntryFor(boxes[k], plan, outcomes, sha)
    {
      var box := boxes[i];
      var o := if box in byBox then Some(byBox[box]) else None;
      var running := if box in probes && probes[box].sha != "-"
          && probes[box].sha != "?" then Some(probes[box].sha) else None;
      entries := entries + [Entry(box, o, if o.Some? && o.value.Good? then Some(sha) else running)];
    }
  }

  ghost predicate Distinct(boxes: seq<string>) {
    forall i, j :: 0 <= i < j < |boxes| ==> boxes[i] != boxes[j]
  }

  lemma {:induction false} OutcomeOfIsAt(p: Pass, outcomes: seq<Outcome>, k: nat)
    requires Ready(p) && Distinct(p.order) && |outcomes| <= |p.order| && k < |p.order|
    requires forall i :: 0 <= i < |outcomes| ==> outcomes[i].box == p.order[i]
    ensures OutcomeOf(outcomes, p.order[k]) == if k < |outcomes| then Some(outcomes[k]) else None
  {
    if outcomes != [] && k != |outcomes| - 1 {
      OutcomeOfIsAt(p, outcomes[..|outcomes| - 1], k);
    }
  }

  /** With distinct targets the record says, for every box, what happened to it: the
      outcome at its place in the order if the pass came that far, and that it was
      not reached otherwise; the target's sha exactly for the verified boxes. */
  lemma RecordTellsThePass(p: Pass, outcomes: seq<Outcome>, k: nat)
    requires Ready(p) && RolledOut(p, outcomes) && Distinct(p.order) && k < |p.order|
    ensures var e := EntryFor(p.order[k], p.plan, outcomes, p.sha);
            && (e.outcome.None? <==> k >= |outcomes|)
            && (k < |outcomes| ==> OutcomeAt(p, k, e.outcome.value))
            && (e.outcome == Some(Good(p.order[k])) ==>
                  ActionAt(p, k) == Deploy && Succeeds(p.attempts(k), p.tries, p.sha) && e.sha == Some(p.sha))
            && (e.outcome.None? ==> outcomes != [] && Bad(outcomes[|outcomes| - 1]))
  {
    hide Succeeds, ActionAt, Ready;
    forall i | 0 <= i < |outcomes| ensures outcomes[i].box == p.order[i] {
      assert OutcomeAt(p, i, outcomes[i]);
    }
    OutcomeOfIsAt(p, outcomes, k);
  }

  lemma {:induction false} FirstRowIs(plan: seq<Row>, i: nat)
    requires i < |plan| && forall j, k :: 0 <= j < k < |plan| ==> plan[j].box != plan[k].box
    ensures RowOf(plan, plan[i].box) == plan[i]
  {
    if i > 0 {
      assert plan[1..][i - 1] == plan[i];
      FirstRowIs(plan[1..], i - 1);
    }
  }

  lemma {:induction false} LastProbeIs(plan: seq<Row>, i: nat)
    requires i < |plan| && forall j, k :: 0 <= j < k < |plan| ==> plan[j].box != plan[k].box
    ensures ProbeOf(plan, plan[i].box) == Some(plan[i].probe)
  {
    if i < |plan| - 1 {
      LastProbeIs(plan[..|plan| - 1], i);
    }
  }

  /** With distinct targets: a box is left as in sync exactly if its version and the target's
      are known and equal, and it is deployed in every other case but a tunnel that is
      down. */
  lemma PlanMeans(p: Pass, boxes: seq<string>, probes: nat -> Probe, target: Target, i: nat, k: nat)
    requires PlanOf(p.plan, boxes, probes, target) && Distinct(boxes) && i < |boxes|
    requires Ready(p) && k < |p.order| && p.order[k] == boxes[i]
    ensures var probe := probes(i);
            var same := probe.version == target.version && target.version !in {"-", "?", "unknown"};
            && (ActionAt(p, k) == TunnelDown <==> !probe.up)
            && (ActionAt(p, k) == InSync <==> probe.up && same)
            && (ActionAt(p, k) == Deploy <==> probe.up && !same)
  {
    assert forall j :: 0 <= j < |boxes| ==> p.plan[j].box == boxes[j];
    FirstRowIs(p.plan, i);
    assert p.plan[i].box == boxes[i];
    assert RowOf(p.plan, boxes[i]) == p.plan[i];
    hide RowOf;
  }

  /** What is said of each box that the pass came to, read off its probe and its deploy: a
      tunnel that is down aborts the canary and skips any other; a box in sync is skipped as
      such; and one that was deployed is good exactly if that succeeded. */
  lemma OutcomesMean(p: Pass, boxes: seq<string>, probes: nat -> Probe, target: Target, outcomes: seq<Outcome>, i: nat,
                     k: nat)
    requires PlanOf(p.plan, boxes, probes, target) && Distinct(boxes) && i < |boxes|
    requires Ready(p) && RolledOut(p, outcomes) && k < |outcomes| && p.order[k] == boxes[i]
    ensures var box, probe := boxes[i], probes(i);
            var same := probe.version == target.version && target.version !in {"-", "?", "unknown"};
            outcomes[k] == if !probe.up then if p.canary == Some(box) then Aborted(box) else Skipped(box, TunnelDown)
                           else if same then Skipped(box, InSync)
                           else if Succeeds(p.attempts(k), p.tries, p.sha) then Good(box)
                           else Failed(box)
  {
    PlanMeans(p, boxes, probes, target, i, k);
    assert OutcomeAt(p, k, outcomes[k]);
    hide Succeeds, ActionAt, PlanOf;
  }

  /** The sha on record: the target's of a verified box, else the one it was last seen with,
      if that was read. */
  lemma RecordedSha(plan: seq<Row>, boxes: seq<string>, probes: nat -> Probe, target: Target, outcomes: seq<Outcome>,
                    sha: string, i: nat)
    requires PlanOf(plan, boxes, probes, target) && Distinct(boxes) && i < |boxes|
    ensures var e := EntryFor(boxes[i], plan, outcomes, sha);
            && e.box == boxes[i]
            && e.sha == if e.outcome.Some? && e.outcome.value.Good? then Some(sha)
                        else if probes(i).sha == "-" || probes(i).sha == "?" then None else Some(probes(i).sha)
  {
    assert forall j :: 0 <= j < |boxes| ==> plan[j].box == boxes[j];
    LastProbeIs(plan, i);
    hide ProbeOf, OutcomeOf;
  }

  // ----- the whole command -----

  datatype Report = Report(rc: int, plan: seq<Row>, outcomes: seq<Outcome>, entries: seq<Entry>)

  const RC_OK := 0
  const RC_FAILURE := 1
  const RC_USAGE := 2
  const RC_TARGET := 3

  lemma OrderIsPlanned(plan: seq<Row>, boxes: seq<string>, canary: Option<string>, probes: nat -> Probe,
      target: Target, p: Pass)
    requires PlanOf(plan, boxes, probes, target) && p.plan == plan && p.order == OrderForApply(boxes, canary)
    ensures Ready(p)
  {
    OrderIsPermutation(boxes, canary);
    hide OrderForApply;
    forall k | 0 <= k < |p.order| ensures exists i :: 0 <= i < |p.plan| && p.plan[i].box == p.order[k] {
      assert p.order[k] in boxes;
      var i :| 0 <= i < |boxes| && boxes[i] == p.order[k];
      assert plan[i].box == p.order[k];
    }
  }

  /** `target` is none if the ref does not resolve, `staged` whether the tree could be
      packed. Past staging the code is 1 exactly when a box failed or the pass was
      aborted. */
  method RunUpgradePass(target: Option<Target>, shaOk: bool, boxes: seq<string>, probes: nat -> Probe,
      canary: Option<string>,
                        apply: bool, staged: bool, tries: nat, attempts: nat -> Attempt) returns (r: Report)
    ensures target.None? ==> r == Report(RC_TARGET, [], [], [])
    ensures target.Some? && !shaOk ==> r == Report(RC_USAGE, [], [], [])
    ensures target.Some? && shaOk ==> PlanOf(r.plan, boxes, probes, target.value)
    ensures target.Some? && shaOk && !(apply && staged) ==>
              r.outcomes == [] && r.entries == [] && r.rc == if apply then RC_TARGET else RC_OK
    ensures target.Some? && shaOk && apply && staged ==>
              var p := Pass(r.plan, OrderForApply(boxes, canary), canary, tries, target.value.sha, attempts);
              && Ready(p) && RolledOut(p, r.outcomes)
              && r.rc == (if exists i :: 0 <= i < |r.outcomes| && Bad(r.outcomes[i]) then RC_FAILURE else RC_OK)
              && |r.entries| == |boxes|
              && forall i :: 0 <= i < |boxes| ==> r.entries[i] == EntryFor(boxes[i], r.plan, r.outcomes, p.sha)
  {
    hide Ready, RolledOut, EntryFor, OrderForApply;
    if target.None? {
      return Report(RC_TARGET, [], [], []);
    }
    if !shaOk {
      return Report(RC_USAGE, [], [], []);
    }
    var plan := BuildPlan(boxes, probes, target.value);
    if !apply {
      return Report(RC_OK, plan, [], []);
    }
    if !staged {
      return Report(RC_TARGET, plan, [], []);
    }
    var p := Pass(plan, OrderForApply(boxes, canary), canary, tries, target.value.sha, attempts);
    OrderIsPlanned(plan, boxes, canary, probes, target.value, p);
    var outcomes, good, skipped, failed, aborted := RollOut(p);
    var entries := RecordApplyOutcomes(boxes, plan, outcomes, p.sha);
    return Report(if failed > 0 || aborted then RC_FAILURE else RC_OK, plan, outcomes, entries);
  }
}
