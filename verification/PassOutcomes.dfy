/** The status edits of each way a pass of either reconciler can end, the one
    pair of ways that wakes itself up, and the in-place helpers of status.go. */
module PassOutcomes {
  import opened StatusConditions

  datatype Outcome =
    // Buckety passes after stamping
    | BackendUnavailable(reason: string)
    | DriverIncompatible
    | ParameterTemplate
    | InvalidParameters
    | ParameterDrift
    | Provisioning
    | EnsureFailed
    | Ensured
    // Buckety teardown
    | BlockedByAccesses
    | RevokingAccesses
    | DeletionBlocked(reason: string)
    | TeardownFailed(reason: string)          // ParameterTemplate, DeletingContents, DeleteFailed
    // access passes
    | AccessNotReady(reason: string)          // BucketyNotFound .. RevokeFailed
    | Minted(principal: string, revocable: string, ignoresRole: bool)

  /** What every compatible Buckety pass does first. */
  function Compatible(build: string): seq<Edit> {
    [Field("driverBuildVersion", build), Remove("DriverVersionIncompatible"), Remove("BackendUnavailable")]
  }

  const ENSURING := Set("Reconciling", true, "Ensuring")

  /** The edits a pass with this outcome makes before patchStatus, in order. */
  function EditsOf(o: Outcome, build: string, observed: string): seq<Edit> {
    match o
    case BackendUnavailable(reason) =>
      [Set("BackendUnavailable", true, reason), Set("Ready", false, "BackendUnavailable")]
    case DriverIncompatible =>
      [Set("DriverVersionIncompatible", true, "DriverMajorBump"), Set("Ready", false, "DriverVersionIncompatible")]
    case ParameterTemplate =>
      Compatible(build) + [Set("Ready", false, "ParameterTemplate"), Set("Reconciling", false, "ParameterTemplate")]
    case InvalidParameters =>
      Compatible(build) + [Set("Ready", false, "InvalidParameters"), Set("Reconciling", false, "InvalidParameters")]
    case ParameterDrift =>
      Compatible(build) +
      [ENSURING, Set("ParameterDrift", true, "Unreconcilable"), Set("Ready", false, "ParameterDrift"),
       Set("Reconciling", false, "Paused")]
    case Provisioning => Compatible(build) + [ENSURING] + [Set("Ready", false, "Provisioning")]
    case EnsureFailed => Compatible(build) + [ENSURING] + [Set("Ready", false, "EnsureFailed")]
    case Ensured =>
      Compatible(build) +
      [ENSURING, Remove("ParameterDrift"), Set("Reconciling", false, "Idle"), Set("Ready", true, "EnsuredOnBackend"),
       Field("observedGeneration", observed)]
    case BlockedByAccesses => [Set("BlockedByAccesses", true, "Pending")]
    case RevokingAccesses => [Set("Ready", false, "RevokingAccesses")]
    case DeletionBlocked(reason) =>
      [Set("BackendUnavailable", true, reason), Set("Ready", false, "BackendUnavailable")]
    case TeardownFailed(reason) => [Set("Ready", false, reason)]
    case AccessNotReady(reason) => [Set("Ready", false, reason)]
    case Minted(principal, revocable, ignoresRole) =>
      [Field("principal", principal), Field("principalRevocable", revocable),
       if ignoresRole then Set("ScopingNotImplemented", true, "DriverIgnoresRole") else Remove("ScopingNotImplemented"),
       Set("Ready", true, "SecretMinted"), Field("observedGeneration", observed)]
  }

  lemma OutcomesSteady(o: Outcome, build: string, observed: string)
    ensures Steady(EditsOf(o, build, observed))
  {
    var edits := EditsOf(o, build, observed);
    forall i, j | 0 <= i < j < |edits| && edits[i].Remove? && edits[j].Set?
      ensures edits[i].typ != edits[j].typ
    {
      assert edits[i].typ in {"DriverVersionIncompatible", "BackendUnavailable", "ParameterDrift", "ScopingNotImplemented"};
      assert edits[i].typ == "ScopingNotImplemented" ==> o.Minted?;
    }
  }

  /** Passes that keep ending the same way write status at most once between
      them, whatever their messages say: no pass wakes itself up. */
  lemma OutcomeQuiescent(s: Status, o: Outcome, build: string, observed: string, generation: int, passes: seq<seq<Draw>>)
    requires forall draws <- passes :: |draws| == |EditsOf(o, build, observed)|
    requires Unique(s.conditions)
    ensures Writings(s, EditsOf(o, build, observed), generation, passes) <= 1
  {
    OutcomesSteady(o, build, observed);
    Quiescent(s, EditsOf(o, build, observed), generation, passes);
  }

  predicate About(e: Edit, typ: string) {
    !e.Field? && e.typ == typ
  }

  /** The last edit about a condition sets it to True. */
  predicate Raises(edits: seq<Edit>, typ: string) {
    exists i | 0 <= i < |edits| ::
      edits[i].Set? && edits[i].typ == typ && edits[i].status && forall j | i < j < |edits| :: !About(edits[j], typ)
  }

  predicate Mentions(edits: seq<Edit>, typ: string) {
    exists i | 0 <= i < |edits| :: About(edits[i], typ)
  }

  lemma {:induction false} NetRaises(edits: seq<Edit>, typ: string)
    ensures NetOf(edits, typ) == Untouched <==> !Mentions(edits, typ)
    ensures NetOf(edits, typ).Put? && NetOf(edits, typ).status <==> Raises(edits, typ)
    ensures NetOf(edits, typ).Gone? ==> Remove(typ) in edits
    decreases |edits|
  {
    if edits != [] {
      var rest := edits[1..];
      NetRaises(rest, typ);
      assert forall i | 0 < i < |edits| :: edits[i] == rest[i - 1];
      if i :| 0 <= i < |rest| && About(rest[i], typ) {
        assert About(edits[i + 1], typ);
      }
      if i :| 0 <= i < |rest| && rest[i].Set? && rest[i].typ == typ && rest[i].status && forall j | i < j < |rest| :: !About(rest[j], typ) {
        assert edits[i + 1].Set? && forall j | i + 1 < j < |edits| :: !About(edits[j], typ);
      }
    }
  }

  lemma ReportsRaised(o: Outcome, build: string, observed: string, typ: string)
    ensures Raises(EditsOf(o, build, observed), typ) <==>
      || (typ == "Ready" && (o.Ensured? || o.Minted?))
      || (typ == "BackendUnavailable" && (o.BackendUnavailable? || o.DeletionBlocked?))
      || (typ == "DriverVersionIncompatible" && o.DriverIncompatible?)
      || (typ == "ParameterDrift" && o.ParameterDrift?)
      || (typ == "Reconciling" && (o.Provisioning? || o.EnsureFailed?))
      || (typ == "BlockedByAccesses" && o.BlockedByAccesses?)
      || (typ == "ScopingNotImplemented" && o.Minted? && o.ignoresRole)
  {
    var edits := EditsOf(o, build, observed);
    match o {
      case ParameterDrift => assert edits[4].Set? && About(edits[6], "Reconciling");
      case Provisioning => assert edits[3].Set?;
      case EnsureFailed => assert edits[3].Set?;
      case Ensured => assert About(edits[5], "Reconciling") && edits[6].Set?;
      case Minted(_, _, _) => assert About(edits[2], "ScopingNotImplemented") && edits[3].Set?;
      case _ => assert edits[0] in edits;
    }
  }

  lemma ReadyMentioned(o: Outcome, build: string, observed: string)
    ensures Mentions(EditsOf(o, build, observed), "Ready") <==> !o.BlockedByAccesses?
    ensures Remove("Ready") !in EditsOf(o, build, observed)
  {
    var edits := EditsOf(o, build, observed);
    match o {
      case BackendUnavailable(_) => assert About(edits[1], "Ready");
      case DriverIncompatible => assert About(edits[1], "Ready");
      case ParameterTemplate => assert About(edits[3], "Ready");
      case InvalidParameters => assert About(edits[3], "Ready");
      case ParameterDrift => assert About(edits[5], "Ready");
      case Provisioning => assert About(edits[4], "Ready");
      case EnsureFailed => assert About(edits[4], "Ready");
      case Ensured => assert About(edits[6], "Ready");
      case BlockedByAccesses => assert edits[0] in edits;
      case DeletionBlocked(_) => assert About(edits[1], "Ready");
      case Minted(_, _, _) => assert About(edits[3], "Ready");
      case _ => assert About(edits[0], "Ready");
    }
  }

  /** After a pass a condition is stored as True exactly when the way it ended is
      one that the condition reports, or it was True and is not touched. */
  lemma ReportedExactly(
      s: Status, o: Outcome, build: string, observed: string, generation: int, draws: seq<Draw>, typ: string)
    requires |draws| == |EditsOf(o, build, observed)| && Unique(s.conditions)
    ensures
      var before := Find(s.conditions, typ);
      var after := Find(Stored(s, EditsOf(o, build, observed), generation, draws).conditions, typ);
      after.Some? && after.value.status <==>
        || (typ == "Ready" && (o.Ensured? || o.Minted?))
        || (typ == "BackendUnavailable" && (o.BackendUnavailable? || o.DeletionBlocked?))
        || (typ == "DriverVersionIncompatible" && o.DriverIncompatible?)
        || (typ == "ParameterDrift" && o.ParameterDrift?)
        || (typ == "Reconciling" && (o.Provisioning? || o.EnsureFailed?))
        || (typ == "BlockedByAccesses" && o.BlockedByAccesses?)
        || (typ == "ScopingNotImplemented" && o.Minted? && o.ignoresRole)
        || (before.Some? && before.value.status && !Mentions(EditsOf(o, build, observed), typ))
  {
    var edits := EditsOf(o, build, observed);
    ReportsRaised(o, build, observed, typ);
    hide EditsOf, Raises, Mentions;
    NetRaises(edits, typ);
    AppliedFind(s, edits, generation, draws, typ);
    KeptFind(s.conditions, ApplyAll(s, edits, generation, draws).conditions, typ);
    WritesUnlessFixed(s, edits, generation, draws);
    FindTypes(s.conditions, typ);
    TypesMember(Types(s.conditions), edits, typ);
  }

  /** So Ready is True exactly when the resource was ensured or the credentials are in
      place, and only a teardown that waits for explicit accesses leaves it alone. */
  lemma ReadyExactly(s: Status, o: Outcome, build: string, observed: string, generation: int, draws: seq<Draw>)
    requires |draws| == |EditsOf(o, build, observed)| && Unique(s.conditions)
    ensures
      var before := Find(s.conditions, "Ready");
      var after := Find(Stored(s, EditsOf(o, build, observed), generation, draws).conditions, "Ready");
      if o.BlockedByAccesses? then (before.None? && after.None?) || (before.Some? && after.Some? && before.value.status == after.value.status)
      else after.Some? && (after.value.status <==> o.Ensured? || o.Minted?)
  {
    var edits := EditsOf(o, build, observed);
    ReportsRaised(o, build, observed, "Ready");
    ReadyMentioned(o, build, observed);
    hide EditsOf, Raises, Mentions;
    NetRaises(edits, "Ready");
    AppliedFind(s, edits, generation, draws, "Ready");
    KeptFind(s.conditions, ApplyAll(s, edits, generation, draws).conditions, "Ready");
    WritesUnlessFixed(s, edits, generation, draws);
    FindTypes(s.conditions, "Ready");
    TypesMember(Types(s.conditions), edits, "Ready");
    AppliedTypes(s, edits, generation, draws);
  }

  // ---- The exception: an in-progress answer past its patience ----

  const PROVISIONING_PATIENCE := 120

  /** provisioningOverdue. */
  predicate Overdue(conds: seq<Condition>, now: int) {
    var c := Find(conds, "Ready");
    c.Some? && !c.value.status && c.value.reason == "Provisioning" && now - c.value.since > PROVISIONING_PATIENCE
  }

  /** How a pass ends when EnsureBuckety keeps answering "provisioning in progress". */
  function InProgress(s: Status, now: int): Outcome {
    if Overdue(s.conditions, now) then EnsureFailed else Provisioning
  }

  /** One draw for a whole pass: the provider's text and the time. */
  function Drawn(n: nat, text: string, now: int): (draws: seq<Draw>)
    ensures |draws| == n
  {
    seq(n, i => (text, now))
  }

  /** One pass answered "in progress". */
  function InProgressPass(s: Status, build: string, generation: int, now: int, text: string): Status {
    var edits := EditsOf(InProgress(s, now), build, "");
    Stored(s, edits, generation, Drawn(|edits|, text, now))
  }

  predicate InProgressWrites(s: Status, build: string, generation: int, now: int, text: string) {
    var edits := EditsOf(InProgress(s, now), build, "");
    Writes(s, edits, generation, Drawn(|edits|, text, now))
  }

  /** The status after passes at `times`, each answered "in progress". */
  function AfterInProgress(s: Status, build: string, generation: int, times: seq<int>, texts: seq<string>): Status
    requires |texts| == |times|
    decreases |times|
  {
    if times == [] then s
    else AfterInProgress(InProgressPass(s, build, generation, times[0], texts[0]), build, generation, times[1..], texts[1..])
  }

  lemma {:induction false} NetOfLast(front: seq<Edit>, typ: string, status: bool, reason: string)
    ensures NetOf(front + [Set(typ, status, reason)], typ) == Put(status, reason)
    decreases |front|
  {
    if front != [] {
      assert (front + [Set(typ, status, reason)])[1..] == front[1..] + [Set(typ, status, reason)];
      NetOfLast(front[1..], typ, status, reason);
    }
  }

  predicate ReadyFalse(s: Status, reason: string, since: int) {
    var c := Find(s.conditions, "Ready");
    c.Some? && !c.value.status && c.value.reason == reason && c.value.since == since
  }

  /** Edits ending in Ready=False for some reason keep the transition time of a
      Ready that was False already. */
  lemma ReasonStored(s: Status, front: seq<Edit>, reason: string, was: string, since: int, generation: int, draws: seq<Draw>)
    requires Unique(s.conditions) && Steady(front + [Set("Ready", false, reason)]) && |draws| == |front| + 1
    requires ReadyFalse(s, was, since)
    ensures
      var edits := front + [Set("Ready", false, reason)];
      && Unique(Stored(s, edits, generation, draws).conditions)
      && (ReadyFalse(Stored(s, edits, generation, draws), reason, since) || (was != reason && !Writes(s, edits, generation, draws)))
  {
    var edits := front + [Set("Ready", false, reason)];
    NetOfLast(front, "Ready", false, reason);
    AppliedFind(s, edits, generation, draws, "Ready");
    KeptFind(s.conditions, ApplyAll(s, edits, generation, draws).conditions, "Ready");
    StoredIsFixed(s, edits, generation, draws);
  }

  /** And a new reason is written. */
  lemma ReasonWritten(s: Status, front: seq<Edit>, reason: string, was: string, since: int, generation: int, draws: seq<Draw>)
    requires Unique(s.conditions) && Steady(front + [Set("Ready", false, reason)]) && |draws| == |front| + 1
    requires ReadyFalse(s, was, since) && was != reason
    ensures
      var edits := front + [Set("Ready", false, reason)];
      && Writes(s, edits, generation, draws)
      && Unique(Stored(s, edits, generation, draws).conditions)
      && ReadyFalse(Stored(s, edits, generation, draws), reason, since)
  {
    var edits := front + [Set("Ready", false, reason)];
    NetOfLast(front, "Ready", false, reason);
    FindTypes(s.conditions, "Ready");
    WritesUnlessFixed(s, edits, generation, draws);
    ReasonStored(s, front, reason, was, since, generation, draws);
  }

  function Other(reason: string): string {
    if reason == "Provisioning" then "EnsureFailed" else "Provisioning"
  }

  /** One such pass past the patience flips the reason, writes, and keeps the transition time. */
  lemma InProgressFlips(s: Status, build: string, generation: int, reason: string, since: int, now: int, text: string)
    requires Unique(s.conditions) && now - since > PROVISIONING_PATIENCE
    requires reason in {"Provisioning", "EnsureFailed"} && ReadyFalse(s, reason, since)
    ensures InProgressWrites(s, build, generation, now, text)
    ensures Unique(InProgressPass(s, build, generation, now, text).conditions)
    ensures ReadyFalse(InProgressPass(s, build, generation, now, text), Other(reason), since)
  {
    var o := InProgress(s, now);
    var edits := EditsOf(o, build, "");
    assert edits == Compatible(build) + [ENSURING] + [Set("Ready", false, Other(reason))];
    OutcomesSteady(o, build, "");
    ReasonWritten(s, Compatible(build) + [ENSURING], Other(reason), reason, since, generation, Drawn(|edits|, text, now));
  }

  /** A stored Ready=False for one of the two reasons of an unfinished provisioning. */
  predicate Unfinished(s: Status, reason: string, since: int) {
    Unique(s.conditions) && reason in {"Provisioning", "EnsureFailed"} && ReadyFalse(s, reason, since)
  }

  function ReasonAfter(reason: string, n: nat): string
    decreases n
  {
    if n == 0 then reason else ReasonAfter(Other(reason), n - 1)
  }

  lemma {:induction false} ReasonByParity(reason: string, n: nat)
    requires reason in {"Provisioning", "EnsureFailed"}
    ensures ReasonAfter(reason, n) == if n % 2 == 0 then reason else Other(reason)
    decreases n
  {
    if n > 0 {
      ReasonByParity(Other(reason), n - 1);
    }
  }

  lemma Flipped(s: Status, build: string, generation: int, reason: string, since: int, now: int, text: string) returns (next: Status)
    requires Unfinished(s, reason, since) && now - since > PROVISIONING_PATIENCE
    ensures next == InProgressPass(s, build, generation, now, text) && Unfinished(next, Other(reason), since)
  {
    next := InProgressPass(s, build, generation, now, text);
    InProgressFlips(s, build, generation, reason, since, now, text);
  }

  lemma {:induction false} UnfinishedThroughout(
      s: Status, build: string, generation: int, reason: string, since: int, times: seq<int>, texts: seq<string>)
    requires |texts| == |times| && Unfinished(s, reason, since)
    requires forall i | 0 <= i < |times| :: times[i] - since > PROVISIONING_PATIENCE
    ensures Unfinished(AfterInProgress(s, build, generation, times, texts), ReasonAfter(reason, |times|), since)
    decreases |times|
  {
    if times != [] {
      var next := Flipped(s, build, generation, reason, since, times[0], texts[0]);
      UnfinishedThroughout(next, build, generation, Other(reason), since, times[1..], texts[1..]);
      assert AfterInProgress(s, build, generation, times, texts) == AfterInProgress(next, build, generation, times[1..], texts[1..]);
    }
  }

  /** Past the patience, a backend that keeps answering "in progress" makes the
      stored reason alternate with each pass, the transition time kept. */
  lemma InProgressAlternates(
      s: Status, build: string, generation: int, reason: string, since: int, times: seq<int>, texts: seq<string>)
    requires |texts| == |times| && Unfinished(s, reason, since)
    requires forall i | 0 <= i < |times| :: times[i] - since > PROVISIONING_PATIENCE
    ensures Unfinished(AfterInProgress(s, build, generation, times, texts),
                       if |times| % 2 == 0 then reason else Other(reason), since)
  {
    UnfinishedThroughout(s, build, generation, reason, since, times, texts);
    ReasonByParity(reason, |times|);
  }

  /** ... and every single one of these passes writes status, waking the next. */
  lemma EveryInProgressWrites(
      s: Status, build: string, generation: int, reason: string, since: int, times: seq<int>, texts: seq<string>, now: int, text: string)
    requires |texts| == |times| && Unfinished(s, reason, since)
    requires forall i | 0 <= i < |times| :: times[i] - since > PROVISIONING_PATIENCE
    requires now - since > PROVISIONING_PATIENCE
    ensures InProgressWrites(AfterInProgress(s, build, generation, times, texts), build, generation, now, text)
  {
    InProgressAlternates(s, build, generation, reason, since, times, texts);
    var reached := AfterInProgress(s, build, generation, times, texts);
    InProgressFlips(reached, build, generation, if |times| % 2 == 0 then reason else Other(reason), since, now, text);
  }

  /** A stored "Provisioning" that the next in-progress pass would only repeat. */
  ghost predicate Waiting(s: Status, build: string, generation: int, since: int) {
    Unfinished(s, "Provisioning", since) && Fixed(s, EditsOf(Provisioning, build, ""), generation)
  }

  /** A first pass within the patience leaves the status so. */
  lemma FirstPassWaits(s: Status, build: string, generation: int, since: int, now: int, text: string)
    requires Unfinished(s, "Provisioning", since) && now - since <= PROVISIONING_PATIENCE
    ensures Waiting(InProgressPass(s, build, generation, now, text), build, generation, since)
  {
    var edits := EditsOf(Provisioning, build, "");
    assert edits == Compatible(build) + [ENSURING] + [Set("Ready", false, "Provisioning")];
    OutcomesSteady(Provisioning, build, "");
    ReasonStored(s, Compatible(build) + [ENSURING], "Provisioning", "Provisioning", since, generation, Drawn(|edits|, text, now));
    StoredIsFixed(s, edits, generation, Drawn(|edits|, text, now));
  }

  /** From there a pass writes exactly when the patience is over. */
  lemma WaitingWritesExactly(s: Status, build: string, generation: int, since: int, now: int, text: string)
    requires Waiting(s, build, generation, since)
    ensures InProgressWrites(s, build, generation, now, text) <==> now - since > 120
    ensures now - since <= 120 ==> InProgressPass(s, build, generation, now, text) == s
  {
    if now - since > PROVISIONING_PATIENCE {
      InProgressFlips(s, build, generation, "Provisioning", since, now, text);
    } else {
      var edits := EditsOf(Provisioning, build, "");
      WritesUnlessFixed(s, edits, generation, Drawn(|edits|, text, now));
    }
  }

  /** How many of the passes at `times`, each answered "in progress", write status. */
  function InProgressWritings(s: Status, build: string, generation: int, times: seq<int>, texts: seq<string>): nat
    requires |texts| == |times|
    decreases |times|
  {
    if times == [] then 0
    else
      (if InProgressWrites(s, build, generation, times[0], texts[0]) then 1 else 0)
      + InProgressWritings(InProgressPass(s, build, generation, times[0], texts[0]), build, generation, times[1..], texts[1..])
  }

  predicate WithinPatience(since: int, times: seq<int>) {
    forall i | 0 <= i < |times| :: times[i] - since <= PROVISIONING_PATIENCE
  }

  /** No pass of a run wakes itself up exactly when all of them are within the patience. */
  lemma {:induction false} QuietExactlyWithinPatience(
      s: Status, build: string, generation: int, since: int, times: seq<int>, texts: seq<string>)
    requires |texts| == |times| && Waiting(s, build, generation, since)
    ensures InProgressWritings(s, build, generation, times, texts) == 0 <==> WithinPatience(since, times)
    decreases |times|
  {
    hide Waiting, InProgressWrites, InProgressPass;
    if times != [] {
      WaitingWritesExactly(s, build, generation, since, times[0], texts[0]);
      if times[0] - since <= PROVISIONING_PATIENCE {
        QuietExactlyWithinPatience(s, build, generation, since, times[1..], texts[1..]);
        assert WithinPatience(since, times) <==> WithinPatience(since, times[1..]) by {
          assert times == [times[0]] + times[1..];
        }
      }
    }
  }

  /** So within the patience passes write status at most once between them. */
  lemma PatientPassesQuiet(s: Status, build: string, generation: int, since: int, times: seq<int>, texts: seq<string>)
    requires |texts| == |times| && Unfinished(s, "Provisioning", since) && WithinPatience(since, times)
    ensures InProgressWritings(s, build, generation, times, texts) <= 1
  {
    if times != [] {
      FirstPassWaits(s, build, generation, since, times[0], texts[0]);
      var next := InProgressPass(s, build, generation, times[0], texts[0]);
      QuietExactlyWithinPatience(next, build, generation, since, times[1..], texts[1..]);
    }
  }

  // ---- The helpers, in place ----

  /** KeepTransitionTimes: the loop over the conditions about to be written. */
  method KeepTransitionTimes(base: seq<Condition>, cur: array<Condition>)
    modifies cur
    ensures cur[..] == KeepAll(base, old(cur[..]))
    // the base's time exactly where base has the condition with the same status
    ensures forall i | 0 <= i < cur.Length ::
      var c, b := old(cur[i]), Find(base, old(cur[i]).typ);
      cur[i] == if b.Some? && b.value.status == c.status then c.(since := b.value.since) else c
  {
    for i := 0 to cur.Length
      invariant forall j | 0 <= j < i :: cur[j] == Kept(base, old(cur[j]))
      invariant forall j | i <= j < cur.Length :: cur[j] == old(cur[j])
    {
      cur[i] := Kept(base, cur[i]);
    }
    assert cur[..] == KeepAll(base, old(cur[..]));
  }

  /** Whether a field is the same in both, set or not. */
  predicate SameField(base: map<string, string>, cur: map<string, string>, k: string) {
    if k in base then k in cur && cur[k] == base[k] else k !in cur
  }

  /** What a merge patch from base to cur leaves of a stored status: fields that
      did not change, and the whole condition list if it did not, stay as stored. */
  function Patched(stored: Status, base: Status, cur: Status): Status {
    Status(
      map k | k in stored.fields.Keys + cur.fields.Keys &&
              (if SameField(base.fields, cur.fields, k) then k in stored.fields else k in cur.fields) ::
        if SameField(base.fields, cur.fields, k) then stored.fields[k] else cur.fields[k],
      if cur.conditions == base.conditions then stored.conditions else cur.conditions)
  }

  /** On a current copy the patch stores what the pass proposes. */
  lemma CurrentPatch(stored: Status, cur: Status)
    ensures Patched(stored, stored, cur) == cur
  {
    assert Patched(stored, stored, cur).fields == cur.fields;
  }

  /** The API object whose status a reconciler patches. */
  class StatusObject {
    var stored: Status

    constructor (stored: Status)
      ensures this.stored == stored
    {
      this.stored := stored;
    }

    /** patchStatus: keep the copy's transition times, then send a merge patch
        unless only messages changed against the copy, which may be stale. */
    method PatchStatus(base: Status, fields: map<string, string>, conditions: array<Condition>) returns (wrote: bool)
      modifies this, conditions
      ensures
        var cur := Status(fields, KeepAll(base.conditions, old(conditions[..])));
        && (wrote <==> ChangedBeyondMessages(base, cur))
        && stored == (if wrote then Patched(old(stored), base, cur) else old(stored))
        // the patch carries what the pass changed against its copy and nothing else
        && (wrote ==> stored.conditions == if cur.conditions == base.conditions then old(stored).conditions else cur.conditions)
        && (wrote ==> forall k ::
             var same := (k in base.fields <==> k in fields) && (k in fields ==> base.fields[k] == fields[k]);
             if same then (k in stored.fields <==> k in old(stored).fields) && (k in stored.fields ==> stored.fields[k] == old(stored).fields[k])
             else (k in stored.fields <==> k in fields) && (k in fields ==> stored.fields[k] == fields[k]))
        && (wrote && base == old(stored) ==> stored == cur)
    {
      KeepTransitionTimes(base.conditions, conditions);
      var cur := Status(fields, conditions[..]);
      wrote := ChangedBeyondMessages(base, cur);
      CurrentPatch(stored, cur);
      if wrote {
        stored := Patched(stored, base, cur);
      }
    }
  }
}
