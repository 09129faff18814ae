/** Which box a lease gets (fleet/src/serve/lease-eligibility.ts): the first reason a box
    cannot be leased, and the choice of a named box or the highest eligible index. */
module LeaseChoice {
  import opened Wrappers
  import opened Text
  import opened Versions

  const MAX_SNAPSHOT_AGE := 900
  const JOB_RUNNER_MIN := "5.5.0"

  datatype Phase = Enrolling | Enrolled | Retired

  datatype Lease =
    | Lost(why: Option<string>) | Expired(holder: string) | Service(holder: string) | Until(holder: string, at: int)

  datatype Box = Box(name: string, index: int, phase: Phase, observed: Option<string>, ver: Option<string>,
                     lease: Option<Lease>, jobState: Option<string>, job: Option<string>)

  datatype Ask = Ask(boxes: seq<Box>, snapshotTs: Option<int>, now: int, canary: string, named: Option<string>,
                     ephemeral: bool, noDrift: bool, want: Option<string>, allowCanary: bool, jobRunner: bool,
                     maxAge: Option<int>, placing: bool)

  datatype Reason =
    | Leased(lease: Lease) | Canary | Observed(what: string) | ApiUnknown | NoSnapshot | NeverProbed | Stale(age: int)
    | Drifted | TooOld(ver: Option<string>, want: string) | NoRunner | SlotHeld(job: Option<string>)
    | WrongPhase(phase: Phase)
    | UnknownBox | NotRequested

  predicate Known(v: Option<string>) {
    v.Some? && Telling(v.value)
  }

  predicate Telling(v: string) {
    v != "" && v != "-" && v != "?" && v != "unknown"
  }

  predicate ObservedBad(o: string) {
    o == "asleep" || o == "incoherent" || o == "hostkey_mismatch" || o == "unhealthy"
  }

  function Cmp(a: string, b: string): int {
    Compare(Split(a, IsSep), Split(b, IsSep))
  }

  function AgeOf(i: Ask): int
    requires i.snapshotTs.Some?
  {
    if i.now > i.snapshotTs.value then i.now - i.snapshotTs.value else 0
  }

  function MaxAge(i: Ask): int {
    if i.maxAge.Some? then i.maxAge.value else MAX_SNAPSHOT_AGE
  }

  /** Every arm in its order of precedence. */
  method IneligibleReason(b: Box, i: Ask) returns (r: Option<Reason>)
    ensures IsReason(b, i, r)
  {
    hide IsReason, Telling, ObservedBad, Split, Compare, AgeOf, MaxAge, Eligible;
    if b.lease.Some? {
      Precedes(b, i, ByLease);
      return Some(Leased(b.lease.value));
    }
    if b.name == i.canary && !(i.allowCanary && i.ephemeral) {
      Precedes(b, i, ByCanary);
      return Some(Canary);
    }
    if b.observed.Some? && ObservedBad(b.observed.value) {
      Precedes(b, i, ByObserved);
      return Some(Observed(b.observed.value));
    }
    if b.observed == Some("api_unknown") {
      Precedes(b, i, ByApi);
      return Some(ApiUnknown);
    }
    if i.snapshotTs.None? {
      Precedes(b, i, BySnapshot);
      return Some(NoSnapshot);
    }
    if b.observed.None? {
      Precedes(b, i, ByProbe);
      return Some(NeverProbed);
    }
    if AgeOf(i) > MaxAge(i) {
      Precedes(b, i, ByAge);
      return Some(Stale(AgeOf(i)));
    }
    if i.noDrift && b.observed == Some("drifted") {
      Precedes(b, i, ByDrift);
      return Some(Drifted);
    }
    if i.want.Some? && i.want.value != "" {
      if !Known(b.ver) {
        Precedes(b, i, ByVersion);
        return Some(TooOld(None, i.want.value));
      }
      var c := CompareVersions(b.ver.value, i.want.value);
      if c < 0 {
        Precedes(b, i, ByVersion);
        return Some(TooOld(b.ver, i.want.value));
      }
    }
    if i.placing {
      if !Known(b.ver) {
        Precedes(b, i, ByRunner);
        return Some(NoRunner);
      }
      var c := CompareVersions(b.ver.value, JOB_RUNNER_MIN);
      if c < 0 {
        Precedes(b, i, ByRunner);
        return Some(NoRunner);
      }
    }
    if (i.placing || i.jobRunner) && b.jobState == Some("running") {
      Precedes(b, i, BySlot);
      return Some(SlotHeld(b.job));
    }
    if b.phase != Enrolled {
      Precedes(b, i, ByPhase);
      return Some(WrongPhase(b.phase));
    }
    NothingObjects(b, i);
    return None;
  }

  // ----- what the arms mean, each on its own -----

  datatype Arm =
    | ByLease | ByCanary | ByObserved | ByApi | BySnapshot | ByProbe
    | ByAge | ByDrift | ByVersion | ByRunner | BySlot | ByPhase

  predicate VersionFails(b: Box, want: string) {
    !Known(b.ver) || Cmp(b.ver.value, want) < 0
  }

  /** The arm objects to the box, wherever it stands in the order. */
  predicate Objects(a: Arm, b: Box, i: Ask) {
    match a
    case ByLease => b.lease.Some?
    case ByCanary => b.name == i.canary && !(i.allowCanary && i.ephemeral)
    case ByObserved => b.observed.Some? && ObservedBad(b.observed.value)
    case ByApi => b.observed == Some("api_unknown")
    case BySnapshot => i.snapshotTs.None?
    case ByProbe => b.observed.None?
    case ByAge => i.snapshotTs.Some? && AgeOf(i) > MaxAge(i)
    case ByDrift => i.noDrift && b.observed == Some("drifted")
    case ByVersion => i.want.Some? && i.want.value != "" && VersionFails(b, i.want.value)
    case ByRunner => i.placing && VersionFails(b, JOB_RUNNER_MIN)
    case BySlot => (i.placing || i.jobRunner) && b.jobState == Some("running")
    case ByPhase => b.phase != Enrolled
  }

  /** The place of an arm in the order. */
  function Rank(a: Arm): nat {
    match a
    case ByLease => 0
    case ByCanary => 1
    case ByObserved => 2
    case ByApi => 3
    case BySnapshot => 4
    case ByProbe => 5
    case ByAge => 6
    case ByDrift => 7
    case ByVersion => 8
    case ByRunner => 9
    case BySlot => 10
    case ByPhase => 11
  }

  function Say(a: Arm, b: Box, i: Ask): Reason
    requires Objects(a, b, i)
  {
    match a
    case ByLease => Leased(b.lease.value)
    case ByCanary => Canary
    case ByObserved => Observed(b.observed.value)
    case ByApi => ApiUnknown
    case BySnapshot => NoSnapshot
    case ByProbe => NeverProbed
    case ByAge => Stale(AgeOf(i))
    case ByDrift => Drifted
    case ByVersion => TooOld(if Known(b.ver) then b.ver else None, i.want.value)
    case ByRunner => NoRunner
    case BySlot => SlotHeld(b.job)
    case ByPhase => WrongPhase(b.phase)
  }

  ghost predicate Eligible(b: Box, i: Ask) {
    forall a :: !Objects(a, b, i)
  }

  /** The objection of an arm that no arm before it shares. */
  ghost predicate FirstObjection(b: Box, i: Ask, a: Arm, r: Reason) {
    Objects(a, b, i) && r == Say(a, b, i) && forall e :: Rank(e) < Rank(a) ==> !Objects(e, b, i)
  }

  /** The arm that gives a reason. */
  function ArmOf(r: Reason): Option<Arm> {
    match r
    case Leased(_) => Some(ByLease)
    case Canary => Some(ByCanary)
    case Observed(_) => Some(ByObserved)
    case ApiUnknown => Some(ByApi)
    case NoSnapshot => Some(BySnapshot)
    case NeverProbed => Some(ByProbe)
    case Stale(_) => Some(ByAge)
    case Drifted => Some(ByDrift)
    case TooOld(_, _) => Some(ByVersion)
    case NoRunner => Some(ByRunner)
    case SlotHeld(_) => Some(BySlot)
    case WrongPhase(_) => Some(ByPhase)
    case UnknownBox => None
    case NotRequested => None
  }

  ghost predicate IsReason(b: Box, i: Ask, r: Option<Reason>) {
    match r
    case None => Eligible(b, i)
    case Some(why) => ArmOf(why).Some? && FirstObjection(b, i, ArmOf(why).value, why)
  }

  lemma Precedes(b: Box, i: Ask, a: Arm)
    requires Objects(a, b, i)
    requires Rank(a) > 0 ==> !Objects(ByLease, b, i)
    requires Rank(a) > 1 ==> !Objects(ByCanary, b, i)
    requires Rank(a) > 2 ==> !Objects(ByObserved, b, i)
    requires Rank(a) > 3 ==> !Objects(ByApi, b, i)
    requires Rank(a) > 4 ==> !Objects(BySnapshot, b, i)
    requires Rank(a) > 5 ==> !Objects(ByProbe, b, i)
    requires Rank(a) > 6 ==> !Objects(ByAge, b, i)
    requires Rank(a) > 7 ==> !Objects(ByDrift, b, i)
    requires Rank(a) > 8 ==> !Objects(ByVersion, b, i)
    requires Rank(a) > 9 ==> !Objects(ByRunner, b, i)
    requires Rank(a) > 10 ==> !Objects(BySlot, b, i)
    ensures IsReason(b, i, Some(Say(a, b, i)))
  {
    hide Objects;
    forall e | Rank(e) < Rank(a) ensures !Objects(e, b, i) {
    }
  }

  lemma NothingObjects(b: Box, i: Ask)
    requires !Objects(ByLease, b, i) && !Objects(ByCanary, b, i) && !Objects(ByObserved, b, i) && !Objects(ByApi, b, i)
    requires !Objects(BySnapshot, b, i) && !Objects(ByProbe, b, i) && !Objects(ByAge, b, i) && !Objects(ByDrift, b, i)
    requires !Objects(ByVersion, b, i) && !Objects(ByRunner, b, i) && !Objects(BySlot, b, i) && !Objects(ByPhase, b, i)
    ensures IsReason(b, i, None)
  {
    hide Objects;
    forall e ensures !Objects(e, b, i) {
      match e
      case ByLease =>
      case ByCanary =>
      case ByObserved =>
      case ByApi =>
      case BySnapshot =>
      case ByProbe =>
      case ByAge =>
      case ByDrift =>
      case ByVersion =>
      case ByRunner =>
      case BySlot =>
      case ByPhase =>
    }
  }

  lemma ReasonIsUnique(b: Box, i: Ask, r: Option<Reason>, s: Option<Reason>)
    requires IsReason(b, i, r) && IsReason(b, i, s)
    ensures r == s
  {
    hide Objects, Say;
    if r.Some? && s.Some? {
      var a, e := ArmOf(r.value).value, ArmOf(s.value).value;
      assert Rank(a) == Rank(e);
    }
  }

  /** A version that tells something, and is no lower than the wanted one. */
  predicate AtLeast(ver: Option<string>, want: string) {
    && ver.Some? && ver.value !in {"", "-", "?", "unknown"}
    && Compare(Split(ver.value, IsSep), Split(want, IsSep)) >= 0
  }

  /** A box that may be leased: free, enrolled, not the canary unless that is allowed to a
      short lease, seen well in a snapshot that is not too old, of the wanted version if one
      is wanted, and for a job with a runner and no running job. */
  predicate Fit(b: Box, i: Ask) {
    && b.lease.None? && b.phase == Enrolled
    && (b.name == i.canary ==> i.allowCanary && i.ephemeral)
    && b.observed.Some?
    && b.observed.value !in {"asleep", "incoherent", "hostkey_mismatch", "unhealthy", "api_unknown"}
    && (b.observed.value == "drifted" ==> !i.noDrift)
    && i.snapshotTs.Some?
    && (match i.maxAge
        case Some(limit) => 0 <= limit && i.now <= i.snapshotTs.value + limit
        case None => i.now <= i.snapshotTs.value + MAX_SNAPSHOT_AGE)
    && (i.want.None? || i.want.value == "" || AtLeast(b.ver, i.want.value))
    && (i.placing ==> AtLeast(b.ver, JOB_RUNNER_MIN))
    && (i.placing || i.jobRunner ==> b.jobState != Some("running"))
  }

  /** No arm objects exactly to the boxes that may be leased. */
  lemma EligibleIsFit(b: Box, i: Ask)
    ensures Eligible(b, i) <==> Fit(b, i)
  {
    hide Split, Compare;
    if Fit(b, i) {
      NoArmObjects(b, i);
    } else {
      assert Objects(ByLease, b, i) || Objects(ByCanary, b, i) || Objects(ByObserved, b, i) || Objects(ByApi, b, i)
          || Objects(BySnapshot, b, i) || Objects(ByProbe, b, i) || Objects(ByAge, b, i) || Objects(ByDrift, b, i)
          || Objects(ByVersion, b, i) || Objects(ByRunner, b, i) || Objects(BySlot, b, i) || Objects(ByPhase, b, i);
    }
  }

  lemma NoArmObjects(b: Box, i: Ask)
    requires Fit(b, i)
    ensures Eligible(b, i)
  {
    hide Split, Compare;
    assert !Objects(ByLease, b, i) && !Objects(ByCanary, b, i) && !Objects(ByObserved, b, i) && !Objects(ByApi, b, i);
    assert !Objects(BySnapshot, b, i) && !Objects(ByProbe, b, i) && !Objects(ByAge, b, i) && !Objects(ByDrift, b, i);
    assert !Objects(ByVersion, b, i) && !Objects(ByRunner, b, i) && !Objects(BySlot, b, i) && !Objects(ByPhase, b, i);
    NothingObjects(b, i);
  }

  // ----- the choice -----

  datatype Because = Named | Highest

  /** `reasons` by box name. */
  datatype Choice = Choice(chosen: Option<(Box, Because)>, reasons: map<string, Reason>)

  predicate Candidate(b: Box, i: Ask) {
    b.phase == Enrolled || b.phase == Enrolling || i.named == Some(b.name)
  }

  ghost predicate Distinct(boxes: seq<Box>) {
    forall j, k :: 0 <= j < k < |boxes| ==> boxes[j].name != boxes[k].name
  }

  /** What an unchosen box is told: its reason, or that it was not asked for. */
  ghost predicate Told(b: Box, i: Ask, r: Reason) {
    IsReason(b, i, Some(r)) || (Eligible(b, i) && r == NotRequested)
  }

  /** The map covers exactly the candidates, each with what it is told. */
  ghost predicate Covers(reasons: map<string, Reason>, boxes: seq<Box>, i: Ask) {
    && (forall k :: 0 <= k < |boxes| && Candidate(boxes[k], i) ==>
          boxes[k].name in reasons && Told(boxes[k], i, reasons[boxes[k].name]))
    && (forall name :: name in reasons ==>
          exists k :: 0 <= k < |boxes| && boxes[k].name == name && Candidate(boxes[k], i))
  }

  ghost predicate NoneEligible(boxes: seq<Box>, i: Ask) {
    forall k :: 0 <= k < |boxes| ==> !InReach(boxes[k], i)
  }

  ghost predicate InReach(b: Box, i: Ask) {
    Candidate(b, i) && Eligible(b, i)
  }

  /** The place of the greatest index among the eligible candidates, the first if tied. */
  ghost predicate HighestAt(boxes: seq<Box>, i: Ask, p: nat) {
    && p < |boxes| && InReach(boxes[p], i)
    && (forall k :: 0 <= k < p && InReach(boxes[k], i) ==> boxes[k].index < boxes[p].index)
    && (forall k :: p < k < |boxes| && InReach(boxes[k], i) ==> boxes[k].index <= boxes[p].index)
  }

  method FindBox(boxes: seq<Box>, name: string) returns (b: Option<Box>)
    ensures b.None? <==> forall k :: 0 <= k < |boxes| ==> boxes[k].name != name
    ensures b.Some? ==> b.value in boxes && b.value.name == name
  {
    for k := 0 to |boxes|
      invariant forall j :: 0 <= j < k ==> boxes[j].name != name
    {
      if boxes[k].name == name {
        return Some(boxes[k]);
      }
    }
    return None;
  }

  /** The reasons of all candidates, for the caller of a named box that it cannot have. */
  method ExplainAll(i: Ask) returns (reasons: map<string, Reason>)
    requires Distinct(i.boxes)
    ensures Covers(reasons, i.boxes, i)
  {
    hide Eligible, IsReason, Candidate;
    reasons := map[];
    for k := 0 to |i.boxes|
      invariant Covers(reasons, i.boxes[..k], i)
    {
      var b := i.boxes[k];
      ghost var was := reasons;
      if Candidate(b, i) {
        var r := IneligibleReason(b, i);
        var why := if r.Some? then r.value else NotRequested;
        assert Told(b, i, why) by {
          NoneIsEligible(b, i, r);
        }
        reasons := reasons[b.name := why];
      }
      CoversGrows(was, reasons, i.boxes, i, k);
    }
    assert i.boxes[..|i.boxes|] == i.boxes;
  }

  lemma NoneIsEligible(b: Box, i: Ask, r: Option<Reason>)
    requires IsReason(b, i, r)
    ensures r.None? <==> Eligible(b, i)
  {
    hide Objects;
  }

  lemma CoversGrows(was: map<string, Reason>, reasons: map<string, Reason>, boxes: seq<Box>, i: Ask, k: nat)
    requires k < |boxes| && Distinct(boxes) && Covers(was, boxes[..k], i)
    requires if Candidate(boxes[k], i)
             then boxes[k].name in reasons && reasons == was[boxes[k].name := reasons[boxes[k].name]]
                  && Told(boxes[k], i, reasons[boxes[k].name])
             else reasons == was
    ensures Covers(reasons, boxes[..k + 1], i)
  {
    hide Told, Candidate;
    var upto := boxes[..k + 1];
    forall j | 0 <= j < |upto| && Candidate(upto[j], i)
        ensures upto[j].name in reasons && Told(upto[j], i, reasons[upto[j].name]) {
      assert j < k ==> boxes[..k][j] == upto[j];
    }
    forall name | name in reasons ensures exists j :: 0 <= j < |upto| && upto[j].name == name && Candidate(upto[j], i) {
      if name in was {
        var j :| 0 <= j < |boxes[..k]| && boxes[..k][j].name == name && Candidate(boxes[..k][j], i);
        assert upto[j] == boxes[..k][j];
      } else {
        assert upto[k].name == name;
      }
    }
  }

  /** The unnamed choice: one pass that keeps the best so far. */
  method ChooseHighest(i: Ask) returns (c: Choice)
    requires Distinct(i.boxes) && i.named.None?
    ensures c.chosen.None? ==> NoneEligible(i.boxes, i) && Covers(c.reasons, i.boxes, i)
    ensures c.chosen.Some? ==> c.reasons == map[] && c.chosen.value.1 == Highest
                               && exists p: nat :: HighestAt(i.boxes, i, p) && i.boxes[p] == c.chosen.value.0
  {
    hide Eligible, IsReason, Candidate, Covers;
    var reasons: map<string, Reason> := map[];
    var best: Option<Box> := None;
    ghost var p: nat := 0;
    CoversNothing(i);
    for k := 0 to |i.boxes|
      invariant best.None? ==> NoneEligible(i.boxes[..k], i) && Covers(reasons, i.boxes[..k], i)
      invariant best.Some? ==> HighestAt(i.boxes[..k], i, p) && i.boxes[p] == best.value
    {
      var b := i.boxes[k];
      ghost var was := reasons;
      if Candidate(b, i) {
        var r := IneligibleReason(b, i);
        NoneIsEligible(b, i, r);
        if r.Some? {
          reasons := reasons[b.name := r.value];
        } else if best.None? || b.index > best.value.index {
          best := Some(b);
          p := k;
        }
      }
      if best.None? {
        CoversGrows(was, reasons, i.boxes, i, k);
      }
    }
    assert i.boxes[..|i.boxes|] == i.boxes;
    if best.None? {
      return Choice(None, reasons);
    }
    return Choice(Some((best.value, Highest)), map[]);
  }

  lemma CoversNothing(i: Ask)
    ensures Covers(map[], [], i)
  {
  }

  /** A named box is chosen exactly if it exists and is eligible; without a name, the
      greatest eligible index is, if there is one. If nothing is chosen the map says of
      every candidate why (and of a name that no box has, that it is unknown). */
  method ChooseBox(i: Ask) returns (c: Choice)
    requires Distinct(i.boxes)
    ensures c.chosen.Some? ==> c.reasons == map[] && c.chosen.value.0 in i.boxes && Eligible(c.chosen.value.0, i)
    ensures i.named.Some? ==>
              && (c.chosen.Some? <==>
                    exists k :: 0 <= k < |i.boxes| && i.boxes[k].name == i.named.value && Eligible(i.boxes[k], i))
              && (c.chosen.Some? ==> c.chosen.value.0.name == i.named.value && c.chosen.value.1 == Named)
    ensures i.named.None? ==>
              && (c.chosen.None? <==> NoneEligible(i.boxes, i))
              && (c.chosen.Some? ==> c.chosen.value.1 == Highest
                                     && exists p: nat :: HighestAt(i.boxes, i, p) && i.boxes[p] == c.chosen.value.0)
    ensures c.chosen.None? ==>
              if i.named.Some? && forall k :: 0 <= k < |i.boxes| ==> i.boxes[k].name != i.named.value
              then i.named.value in c.reasons && c.reasons[i.named.value] == UnknownBox
                  && Covers(c.reasons - {i.named.value}, i.boxes, i)
              else Covers(c.reasons, i.boxes, i)
  {
    hide Eligible, IsReason, Candidate, Told;
    if i.named.None? {
      hide Covers;
      c := ChooseHighest(i);
      HighestIsEligible(i);
      return;
    }
    var b := FindBox(i.boxes, i.named.value);
    if b.None? {
      var reasons := ExplainAll(i);
      assert i.named.value !in reasons;
      assert reasons[i.named.value := UnknownBox] - {i.named.value} == reasons;
      return Choice(None, reasons[i.named.value := UnknownBox]);
    }
    var r := IneligibleReason(b.value, i);
    NoneIsEligible(b.value, i, r);
    if r.None? {
      return Choice(Some((b.value, Named)), map[]);
    }
    var reasons := ExplainAll(i);
    return Choice(None, reasons);
  }

  /** Of the boxes in the table the map is silent about the retired ones that were not named,
      and about no other. */
  lemma SilentOnTheRetired(reasons: map<string, Reason>, i: Ask, k: nat)
    requires Covers(reasons, i.boxes, i) && Distinct(i.boxes) && k < |i.boxes|
    ensures i.boxes[k].name in reasons <==> i.boxes[k].phase != Retired || i.named == Some(i.boxes[k].name)
  {
    hide Told;
  }

  lemma HighestIsEligible(i: Ask)
    ensures forall p: nat :: HighestAt(i.boxes, i, p) ==>
            i.boxes[p] in i.boxes && Eligible(i.boxes[p], i) && !NoneEligible(i.boxes, i)
  {
    hide Eligible, Candidate;
  }
}
