/** Who may destroy what, and when: the Buckety reconciler's stamping and
    teardown, and the access reconciler's recording and release, as one machine.

    Each pass is cut at its calls, so passes of the two reconcilers interleave
    with each other, with users' edits, with crashes and with config changes.
    A Buckety pass may work on any copy of the Buckety that was ever stored;
    writes that carry a resourceVersion land only on the version read.
 */
module DeletionProtocol {

  import opened Wrappers

  datatype Retention = Retain | Delete
  datatype Adoption = AdoptEmpty | Adopt

  /** Legacy: stamped by a controller that did not track provenance. */
  datatype Provenance = Created | Adopted | Legacy

  /** InspectBuckety's report. */
  datatype Inspection = Inspection(exists_: bool, empty: bool)

  /** The sticky fields of status. */
  datatype Stamp = Stamp(driver: string, resource: string, provenance: Provenance)

  datatype Buckety = Buckety(
    rv: nat, finalizer: bool, deleting: bool,
    retention: Retention, adoption: Adoption,
    stamp: Option<Stamp>, ready: bool)

  datatype Principal = NoPrincipal | Static | Revocable(id: nat)

  /** A BucketyAccess that references the Buckety. */
  datatype Access = Access(implicit: bool, finalizer: bool, deleting: bool, principal: Principal)

  datatype BucketyPc =
    | BIdle
    | Inspected(copy: Buckety, resource: string, report: Inspection)
    | Serving(copy: Buckety)
    | Tearing(copy: Buckety)
    | Cleared(copy: Buckety)
    | Releasing(copy: Buckety, emptied: bool)

  datatype AccessPc =
    | AIdle
    | Committing(principal: Principal)
    | Dropping(recorded: Principal, found: bool)    // found: the Buckety, when the pass read it
    | Droppable(recorded: Principal, revoked: bool)

  datatype DeleteCall = DeleteCall(driver: string, resource: string)

  datatype State = State(
    bky: Option<Buckety>,
    copies: set<Buckety>,             // every version stored so far
    driver: Option<string>,           // driver registered under spec.backend
    accesses: map<string, Access>,
    past: map<string, set<Principal>>,// every principal an access's status has had
    bpc: BucketyPc,
    apc: map<string, AccessPc>,
    frozen: Option<Stamp>,            // ghost: the stamp that was persisted
    inspected: Option<Inspection>,    // ghost: the inspection it was decided on
    calls: set<DeleteCall>)           // ghost: every DeleteBuckety call so far

  /** Finalizer, adoption gate, stamping, serving. */
  datatype ProvisionStep =
    | AddFinalizer(copy: Buckety)
    | Inspect(copy: Buckety, resource: string, report: Inspection)
    | RefuseAdoption
    | StampOk
    | StampConflict
    | Serve(copy: Buckety)
    | Report(ready: bool)
    | CreateImplicit(name: string)
    | ReclaimImplicit(name: string)

  /** reconcileDelete. */
  datatype TeardownStep =
    | Tear(copy: Buckety)
    | ListBlocked
    | ListImplicit(name: string)
    | ListClear
    | KeepAdopted
    | NothingToDelete
    | BackendUnavailable
    | DeleteOk
    | DeleteUnfinished
    | ReleaseOk
    | ReleaseConflict
    | Unready
    | BucketyCrash

  datatype AccessStep =
    | AddAccessFinalizer
    | Grant(principal: Principal)
    | RecordOk
    | RecordFails
    | BeginDrop(recorded: Principal)
    | DropBlocked
    | RevokeOk
    | RevokeFails
    | SkipStatic
    | DropOrphan
    | AccessReleaseOk
    | AccessReleaseConflict
    | AccessCrash

  datatype UserStep =
    | EditSpec(retention: Retention, adoption: Adoption)
    | DeleteBuckety
    | CreateAccess(name: string)
    | DeleteAccess(name: string)
    | ConfigChange(driver: Option<string>)

  datatype Event =
    | OfProvision(b: ProvisionStep)
    | OfTeardown(t: TeardownStep)
    | OfAccess(name: string, a: AccessStep)
    | OfUser(u: UserStep)

  // ---- The code's decisions ----

  /** decideProvenance; None refuses the adoption. */
  function DecideProvenance(report: Inspection, policy: Adoption): Option<Provenance> {
    if !report.exists_ then Some(Created)
    else if report.empty || policy == Adopt then Some(Adopted)
    else None
  }

  /** unavailableReason != "": the backend is missing, or runs another driver than the stamped one. */
  predicate Unavailable(driver: Option<string>, copy: Buckety) {
    driver.None? || (copy.stamp.Some? && copy.stamp.value.driver != driver.value)
  }

  predicate DeletesBackend(copy: Buckety) {
    copy.retention == Delete && copy.stamp.Some? && copy.stamp.value.provenance != Adopted
  }

  function PcOf(s: State, name: string): AccessPc {
    if name in s.apc then s.apc[name] else AIdle
  }

  function Store(s: State, b: Buckety): State {
    var next := b.(rv := b.rv + 1);
    s.(bky := Some(next), copies := s.copies + {next})
  }

  function WithPc(s: State, name: string, pc: AccessPc): State {
    s.(apc := s.apc[name := pc])
  }

  /** Delete on an access: its finalizer holds it back, otherwise it is gone. */
  function Removed(s: State, name: string): State {
    if name !in s.accesses then s
    else if s.accesses[name].finalizer then s.(accesses := s.accesses[name := s.accesses[name].(deleting := true)])
    else s.(accesses := s.accesses - {name})
  }

  // ---- Steps ----

  predicate ProvisionEnabled(s: State, b: ProvisionStep) {
    match b
    case AddFinalizer(copy) => s.bpc.BIdle? && copy in s.copies && !copy.deleting && !copy.finalizer
    case Inspect(copy, _, _) =>
      s.bpc.BIdle? && copy in s.copies && !copy.deleting && copy.finalizer && copy.stamp.None? && s.driver.Some?
    case RefuseAdoption => s.bpc.Inspected? && DecideProvenance(s.bpc.report, s.bpc.copy.adoption).None?
    // Status().Update: the version read must still be the stored one
    case StampOk =>
      s.bpc.Inspected? && DecideProvenance(s.bpc.report, s.bpc.copy.adoption).Some? &&
      s.driver.Some? && s.bky == Some(s.bpc.copy)
    case StampConflict => s.bpc.Inspected?
    case Serve(copy) =>
      s.bpc.BIdle? && copy in s.copies && !copy.deleting && copy.finalizer && copy.stamp.Some? &&
      !Unavailable(s.driver, copy)
    case Report(_) => s.bpc.Serving?
    case CreateImplicit(_) => s.bpc.Serving?
    // a delete by name: on a lagging list any access can have that name by now
    case ReclaimImplicit(_) => s.bpc.Serving?
  }

  function ProvisionNext(s: State, b: ProvisionStep): State
    requires ProvisionEnabled(s, b)
  {
    match b
    case AddFinalizer(copy) =>
      // a merge patch by name; the API refuses new finalizers on a terminating object
      if s.bky.Some? && !s.bky.value.deleting then Store(s, s.bky.value.(finalizer := true)) else s
    case Inspect(copy, resource, report) => s.(bpc := Inspected(copy, resource, report))
    case RefuseAdoption => s.(bpc := BIdle)
    case StampOk =>
      var stamp := Stamp(s.driver.value, s.bpc.resource, DecideProvenance(s.bpc.report, s.bpc.copy.adoption).value);
      Store(s, s.bky.value.(stamp := Some(stamp)))
      .(bpc := BIdle, frozen := Some(stamp), inspected := Some(s.bpc.report))
    case StampConflict => s.(bpc := BIdle)
    case Serve(copy) => s.(bpc := Serving(copy))
    case Report(ready) =>
      // a merge patch by name
      if s.bky.Some? then Store(s, s.bky.value.(ready := ready)).(bpc := BIdle) else s.(bpc := BIdle)
    case CreateImplicit(name) =>
      if name in s.accesses then s else s.(accesses := s.accesses[name := Access(true, false, false, NoPrincipal)])
    case ReclaimImplicit(name) => Removed(s, name)
  }

  predicate TeardownEnabled(s: State, t: TeardownStep) {
    match t
    case Tear(copy) => s.bpc.BIdle? && copy in s.copies && copy.deleting
    // the live list of referencing accesses
    case ListBlocked => s.bpc.Tearing? && exists name <- s.accesses :: !s.accesses[name].implicit
    case ListImplicit(name) =>
      s.bpc.Tearing? && (forall n <- s.accesses :: s.accesses[n].implicit) && name in s.accesses
    case ListClear => s.bpc.Tearing? && s.accesses == map[]
    case KeepAdopted =>
      s.bpc.Cleared? && s.bpc.copy.retention == Delete && s.bpc.copy.stamp.Some? &&
      s.bpc.copy.stamp.value.provenance == Adopted
    case NothingToDelete =>
      s.bpc.Cleared? && (s.bpc.copy.retention == Retain || s.bpc.copy.stamp.None?)
    case BackendUnavailable => s.bpc.Cleared? && DeletesBackend(s.bpc.copy) && Unavailable(s.driver, s.bpc.copy)
    case DeleteOk => s.bpc.Cleared? && DeletesBackend(s.bpc.copy) && !Unavailable(s.driver, s.bpc.copy)
    case DeleteUnfinished => s.bpc.Cleared? && DeletesBackend(s.bpc.copy) && !Unavailable(s.driver, s.bpc.copy)
    case ReleaseOk => s.bpc.Releasing? && s.bky == Some(s.bpc.copy)
    case ReleaseConflict => s.bpc.Releasing?
    case Unready => true
    case BucketyCrash => true
  }

  function Called(s: State): State
    requires s.bpc.Cleared? && s.bpc.copy.stamp.Some? && s.driver.Some?
  {
    s.(calls := s.calls + {DeleteCall(s.driver.value, s.bpc.copy.stamp.value.resource)})
  }

  function TeardownNext(s: State, t: TeardownStep): State
    requires TeardownEnabled(s, t)
  {
    match t
    case Tear(copy) => s.(bpc := Tearing(copy))
    case ListBlocked => s.(bpc := BIdle)
    case ListImplicit(name) => (if s.accesses[name].deleting then s else Removed(s, name)).(bpc := BIdle)
    case ListClear => s.(bpc := Cleared(s.bpc.copy))
    case KeepAdopted => s.(bpc := Releasing(s.bpc.copy, false))
    case NothingToDelete => s.(bpc := Releasing(s.bpc.copy, false))
    case BackendUnavailable => s.(bpc := BIdle)
    case DeleteOk => Called(s).(bpc := Releasing(s.bpc.copy, true))
    case DeleteUnfinished => Called(s).(bpc := BIdle)
    case ReleaseOk => s.(bky := None, bpc := BIdle)
    case ReleaseConflict => s.(bpc := BIdle)
    // any pass that stops short patches Ready=False
    case Unready =>
      if s.bky.Some? then Store(s, s.bky.value.(ready := false)).(bpc := BIdle) else s.(bpc := BIdle)
    case BucketyCrash => s.(bpc := BIdle)
  }

  predicate AccessEnabled(s: State, name: string, a: AccessStep) {
    name in s.accesses &&
    match a
    case AddAccessFinalizer => PcOf(s, name).AIdle? && !s.accesses[name].deleting
    case Grant(principal) =>
      PcOf(s, name).AIdle? && s.accesses[name].finalizer && principal != NoPrincipal &&
      s.bky.Some? && s.bky.value.ready && s.bky.value.stamp.Some? && s.driver.Some?
    case RecordOk => PcOf(s, name).Committing?
    case RecordFails => PcOf(s, name).Committing?
    case BeginDrop(recorded) =>
      PcOf(s, name).AIdle? && s.accesses[name].deleting && s.accesses[name].finalizer &&
      (recorded == s.accesses[name].principal || (name in s.past && recorded in s.past[name]))
    case DropBlocked => PcOf(s, name).Dropping?
    case RevokeOk => PcOf(s, name).Dropping? && PcOf(s, name).found && s.driver.Some?
    case RevokeFails => PcOf(s, name).Dropping? && PcOf(s, name).found && s.driver.Some?
    case SkipStatic =>
      PcOf(s, name).Dropping? && PcOf(s, name).found && s.driver.None? && !PcOf(s, name).recorded.Revocable?
    case DropOrphan => PcOf(s, name).Dropping? && !PcOf(s, name).found
    case AccessReleaseOk => PcOf(s, name).Droppable? && PcOf(s, name).recorded == s.accesses[name].principal
    case AccessReleaseConflict => PcOf(s, name).Droppable?
    case AccessCrash => true
  }

  function AccessNext(s: State, name: string, a: AccessStep): State
    requires AccessEnabled(s, name, a)
  {
    match a
    case AddAccessFinalizer => s.(accesses := s.accesses[name := s.accesses[name].(finalizer := true)])
    case Grant(principal) => WithPc(s, name, Committing(principal))
    case RecordOk =>
      var p := PcOf(s, name).principal;
      WithPc(s, name, AIdle).(
        accesses := s.accesses[name := s.accesses[name].(principal := p)],
        past := s.past[name := (if name in s.past then s.past[name] else {}) + {s.accesses[name].principal, p}])
    case RecordFails => WithPc(s, name, AIdle)
    case BeginDrop(recorded) => WithPc(s, name, Dropping(recorded, s.bky.Some?))
    case DropBlocked => WithPc(s, name, AIdle)
    case RevokeOk => WithPc(s, name, Droppable(PcOf(s, name).recorded, true))
    case RevokeFails => WithPc(s, name, AIdle)
    case SkipStatic => WithPc(s, name, Droppable(PcOf(s, name).recorded, false))
    case DropOrphan => WithPc(s, name, Droppable(PcOf(s, name).recorded, false))
    case AccessReleaseOk => WithPc(s, name, AIdle).(accesses := s.accesses - {name}, past := s.past - {name})
    case AccessReleaseConflict => WithPc(s, name, AIdle)
    case AccessCrash => WithPc(s, name, AIdle)
  }

  predicate UserEnabled(s: State, u: UserStep) {
    match u
    case EditSpec(_, _) => s.bky.Some?
    case DeleteBuckety => s.bky.Some?
    case CreateAccess(name) => name !in s.accesses
    case DeleteAccess(name) => name in s.accesses
    case ConfigChange(_) => true
  }

  function UserNext(s: State, u: UserStep): State
    requires UserEnabled(s, u)
  {
    match u
    case EditSpec(retention, adoption) => Store(s, s.bky.value.(retention := retention, adoption := adoption))
    case DeleteBuckety =>
      if s.bky.value.finalizer then Store(s, s.bky.value.(deleting := true)) else s.(bky := None)
    case CreateAccess(name) => s.(accesses := s.accesses[name := Access(false, false, false, NoPrincipal)])
    case DeleteAccess(name) => Removed(s, name)
    // config is read at start only: a change comes with a restart
    case ConfigChange(driver) => s.(driver := driver, bpc := BIdle, apc := map[])
  }

  predicate Enabled(s: State, e: Event) {
    match e
    case OfProvision(b) => ProvisionEnabled(s, b)
    case OfTeardown(t) => TeardownEnabled(s, t)
    case OfAccess(name, a) => AccessEnabled(s, name, a)
    case OfUser(u) => UserEnabled(s, u)
  }

  function Next(s: State, e: Event): State
    requires Enabled(s, e)
  {
    match e
    case OfProvision(b) => ProvisionNext(s, b)
    case OfTeardown(t) => TeardownNext(s, t)
    case OfAccess(name, a) => AccessNext(s, name, a)
    case OfUser(u) => UserNext(s, u)
  }

  predicate Legal(s: State, run: seq<Event>)
    decreases |run|
  {
    run == [] || (Enabled(s, run[0]) && Legal(Next(s, run[0]), run[1..]))
  }

  function Run(s: State, run: seq<Event>): State
    requires Legal(s, run)
    decreases |run|
  {
    if run == [] then s else Run(Next(s, run[0]), run[1..])
  }

  /** One more step at the end of a run. */
  lemma {:induction false} RunExtended(s: State, run: seq<Event>, e: Event)
    requires Legal(s, run) && Enabled(Run(s, run), e)
    ensures Legal(s, run + [e]) && Run(s, run + [e]) == Next(Run(s, run), e)
    decreases |run|
  {
    if run != [] {
      RunExtended(Next(s, run[0]), run[1..], e);
      assert (run + [e])[1..] == run[1..] + [e];
    }
  }

  /** A Buckety just created, or one stamped before provenance was tracked; nothing has run yet. */
  ghost predicate Init(s: State) {
    s.bky.Some? && s.copies == {s.bky.value} &&
    !s.bky.value.deleting && !s.bky.value.ready &&
    (s.bky.value.stamp.Some? ==> s.bky.value.stamp.value.provenance == Legacy && s.bky.value.finalizer) &&
    s.frozen == s.bky.value.stamp && s.inspected.None? &&
    s.accesses == map[] && s.past == map[] && s.bpc.BIdle? && s.apc == map[] && s.calls == {}
  }

  // ---- What is destroyed in the backend ----

  /** Stored versions agree on the stamp once there is one, and nothing stored is newer than the object. */
  ghost predicate Sticky(s: State) {
    && (s.bky.Some? ==> s.bky.value in s.copies && s.bky.value.stamp == s.frozen)
    && (forall c <- s.copies :: AgreesWith(c, s.bky, s.frozen))
    && (!s.bpc.BIdle? ==> s.bpc.copy in s.copies)
    && (s.bpc.Inspected? ==> s.bpc.copy.stamp.None?)
    && (s.bpc.Releasing? ==> (DeletesBackend(s.bpc.copy) ==> s.bpc.emptied))
  }

  ghost predicate AgreesWith(c: Buckety, bky: Option<Buckety>, frozen: Option<Stamp>) {
    (c.stamp.Some? ==> c.stamp == frozen) && (bky.Some? ==> c.rv <= bky.value.rv)
  }

  /** The frozen provenance is what the recorded inspection calls for. */
  ghost predicate Decided(frozen: Option<Stamp>, inspected: Option<Inspection>) {
    match inspected
    case Some(report) =>
      frozen.Some? && frozen.value.provenance == if report.exists_ then Adopted else Created
    case None => frozen.Some? ==> frozen.value.provenance.Legacy?
  }

  /** Every DeleteBuckety call so far: the frozen name, the stamped driver, nothing adopted. */
  ghost predicate Licensed(calls: set<DeleteCall>, frozen: Option<Stamp>) {
    forall c <- calls ::
      frozen.Some? && frozen.value.provenance != Adopted &&
      c == DeleteCall(frozen.value.driver, frozen.value.resource)
  }

  ghost predicate Safe(s: State) {
    Sticky(s) && Decided(s.frozen, s.inspected) && Licensed(s.calls, s.frozen)
  }

  lemma ProvisionSafe(s: State, b: ProvisionStep)
    requires Safe(s) && ProvisionEnabled(s, b)
    ensures Safe(ProvisionNext(s, b))
  {
  }

  lemma TeardownSafe(s: State, t: TeardownStep)
    requires Safe(s) && TeardownEnabled(s, t)
    ensures Safe(TeardownNext(s, t))
  {
  }

  lemma AccessSafe(s: State, name: string, a: AccessStep)
    requires Safe(s) && AccessEnabled(s, name, a)
    ensures Safe(AccessNext(s, name, a))
  {
  }

  lemma UserSafe(s: State, u: UserStep)
    requires Safe(s) && UserEnabled(s, u)
    ensures Safe(UserNext(s, u))
  {
  }

  lemma NextSafe(s: State, e: Event)
    requires Safe(s) && Enabled(s, e)
    ensures Safe(Next(s, e))
  {
    match e
    case OfProvision(b) => ProvisionSafe(s, b);
    case OfTeardown(t) => TeardownSafe(s, t);
    case OfAccess(name, a) => AccessSafe(s, name, a);
    case OfUser(u) => UserSafe(s, u);
  }

  lemma {:induction false} RunSafe(s: State, run: seq<Event>)
    requires Safe(s) && Legal(s, run)
    ensures Safe(Run(s, run))
    decreases |run|
  {
    if run != [] {
      NextSafe(s, run[0]);
      RunSafe(Next(s, run[0]), run[1..]);
    }
  }

  /** A call of DeleteBuckety, in terms of the pass's copy alone: the list was
      clear, the policy is Delete, the stamp is not that of an adopted resource, and
      the driver is the stamped one. */
  ghost predicate CallsBackend(s: State, c: DeleteCall) {
    && s.bpc.Cleared? && s.bpc.copy.retention == Delete
    && s.bpc.copy.stamp.Some? && s.bpc.copy.stamp.value.provenance in {Created, Legacy}
    && s.driver == Some(s.bpc.copy.stamp.value.driver)
    && c == DeleteCall(s.bpc.copy.stamp.value.driver, s.bpc.copy.stamp.value.resource)
  }

  /** No step calls DeleteBuckety otherwise; and where the policy is Delete and the
      resource was not adopted, no step lets go without a call that returned nil. */
  lemma CallsExactly(s: State, e: Event)
    requires Enabled(s, e)
    ensures forall c <- Next(s, e).calls :: c in s.calls || CallsBackend(s, c)
    ensures e in {OfTeardown(DeleteOk), OfTeardown(DeleteUnfinished)} ==> exists c :: CallsBackend(s, c) && c in Next(s, e).calls
    ensures s.bpc.Cleared? && Next(s, e).bpc.Releasing? && s.bpc.copy.retention == Retain ==> Next(s, e).calls == s.calls
    ensures
      (&& s.bpc.Cleared? && Next(s, e).bpc.Releasing? && s.bpc.copy.retention == Delete && s.bpc.copy.stamp.Some?
       && s.bpc.copy.stamp.value.provenance != Adopted) ==> e == OfTeardown(DeleteOk)
  {
    if e.OfTeardown? && (e.t.DeleteOk? || e.t.DeleteUnfinished?) {
      assert CallsBackend(s, DeleteCall(s.bpc.copy.stamp.value.driver, s.bpc.copy.stamp.value.resource));
    }
  }

  /** A stored version of the Buckety, terminating, asked for this call. */
  ghost predicate AskedFor(copies: set<Buckety>, c: DeleteCall) {
    exists b <- copies ::
      b.deleting && b.retention == Delete && b.stamp.Some? && b.stamp.value.provenance != Adopted &&
      b.stamp.value.driver == c.driver && b.stamp.value.resource == c.resource
  }

  /** The copy of a teardown pass is a terminating one. */
  ghost predicate TearsTerminating(s: State) {
    (s.bpc.Tearing? || s.bpc.Cleared? || s.bpc.Releasing? ==> s.bpc.copy.deleting)
    && forall c <- s.calls :: AskedFor(s.copies, c)
  }

  lemma CopiesGrow(s: State, e: Event)
    requires Enabled(s, e)
    ensures s.copies <= Next(s, e).copies
  {
  }

  lemma StepAsked(s: State, e: Event)
    requires Safe(s) && TearsTerminating(s) && Enabled(s, e)
    ensures TearsTerminating(Next(s, e))
  {
    var t := Next(s, e);
    CopiesGrow(s, e);
    CallsExactly(s, e);
    assert !s.bpc.BIdle? ==> s.bpc.copy in s.copies;
    hide Safe;
    forall c | c in t.calls ensures AskedFor(t.copies, c) {
      if c in s.calls {
        assert AskedFor(s.copies, c);
      } else {
        assert CallsBackend(s, c) && s.bpc.copy in s.copies;
      }
    }
  }

  lemma {:induction false} RunAsked(s: State, run: seq<Event>)
    requires Safe(s) && TearsTerminating(s) && Legal(s, run)
    ensures TearsTerminating(Run(s, run))
    decreases |run|
  {
    hide Safe, TearsTerminating, Enabled, Next;
    if run != [] {
      StepAsked(s, run[0]);
      NextSafe(s, run[0]);
      RunAsked(Next(s, run[0]), run[1..]);
    }
  }

  /** Over every run each DeleteBuckety call was asked for by a stored version of
      the Buckety: terminating, with retentionPolicy=Delete and a stamp, not that
      of an adopted resource, naming driver and resource.  So a Buckety that never
      had that policy keeps its resource. */
  lemma RetainedSurvives(s: State, run: seq<Event>)
    requires Init(s) && Legal(s, run)
    ensures
      var t := Run(s, run);
      && (forall c <- t.calls :: AskedFor(t.copies, c))
      && ((forall b <- t.copies :: b.retention == Retain) ==> t.calls == {})
  {
    RunAsked(s, run);
    var t := Run(s, run);
    if c :| c in t.calls {
      assert AskedFor(t.copies, c);
    }
  }

  /** Whatever users edit, whichever copies passes work on and however often
      the controller restarts:
      - DeleteBuckety is called only with the frozen name, on the stamped
        driver, and never when the inspection at stamping found the resource;
      - a finalizer about to be released under retentionPolicy=Delete, with a
        stamped name and no adoption, follows a DeleteBuckety that returned nil
        in the same pass. */
  lemma PreexistingSurvives(s: State, run: seq<Event>)
    requires Init(s) && Legal(s, run)
    ensures
      var t := Run(s, run);
      && (forall c <- t.calls :: t.frozen.Some? && c == DeleteCall(t.frozen.value.driver, t.frozen.value.resource))
      && (t.inspected.Some? && t.inspected.value.exists_ ==> t.calls == {})
      && ((&& TeardownEnabled(t, ReleaseOk) && t.bky.value.retention == Delete && t.bky.value.stamp.Some?
           && t.bky.value.stamp.value.provenance != Adopted) ==> t.bpc.emptied)
  {
    RunSafe(s, run);
  }

  // ---- Credentials outlive neither their access nor their Buckety ----

  /** A teardown pass has listed no access and is about to let a Buckety go that
      is still served: its copy is current, Ready and stamped, and its backend is
      there to grant with. */
  predicate Window(s: State) {
    && (s.bpc.Cleared? || s.bpc.Releasing?)
    && s.bky == Some(s.bpc.copy) && s.bpc.copy.ready && s.bpc.copy.stamp.Some? && s.driver.Some?
    && (s.bpc.Cleared? && DeletesBackend(s.bpc.copy) ==> !Unavailable(s.driver, s.bpc.copy))
  }

  /** An access is created in that window. */
  predicate Races(s: State, e: Event) {
    e.OfUser? && e.u.CreateAccess? && Window(s)
  }

  predicate NoRace(s: State, run: seq<Event>)
    requires Legal(s, run)
    decreases |run|
  {
    run == [] || (!Races(s, run[0]) && NoRace(Next(s, run[0]), run[1..]))
  }

  /** A run is without race exactly when every access in it is created outside the window. */
  lemma {:induction false} NoRaceExactly(s: State, run: seq<Event>)
    requires Legal(s, run)
    ensures NoRace(s, run) <==>
      forall i | 0 <= i < |run| && run[i].OfUser? && run[i].u.CreateAccess? :: Legal(s, run[..i]) && !Window(Run(s, run[..i]))
    decreases |run|
  {
    hide Window, Enabled, Next;
    if run != [] {
      var next := Next(s, run[0]);
      NoRaceExactly(next, run[1..]);
      forall i | 0 < i < |run|
        ensures run[i] == run[1..][i - 1]
        ensures Legal(s, run[..i]) <==> Legal(next, run[1..][..i - 1])
        ensures Legal(s, run[..i]) ==> Run(s, run[..i]) == Run(next, run[1..][..i - 1])
      {
        assert run[..i][0] == run[0] && run[..i][1..] == run[1..][..i - 1];
      }
      assert run[..0] == [];
      if !NoRace(next, run[1..]) {
        var j :| 0 <= j < |run[1..]| && run[1..][j].OfUser? && run[1..][j].u.CreateAccess? &&
                 !(Legal(next, run[1..][..j]) && !Window(Run(next, run[1..][..j])));
        assert run[j + 1] == run[1..][j];
      } else {
        forall i | 0 < i < |run| && run[i].OfUser? && run[i].u.CreateAccess?
          ensures Legal(s, run[..i]) && !Window(Run(s, run[..i]))
        {
          assert run[1..][i - 1].OfUser? && run[1..][i - 1].u.CreateAccess?;
        }
      }
    }
  }

  ghost predicate FinalizerKept(copies: set<Buckety>, bky: Option<Buckety>) {
    forall c <- copies ::
      (c.stamp.Some? || c.ready ==> c.finalizer) && (bky.Some? && c.finalizer ==> bky.value.finalizer)
  }

  ghost predicate Held(bky: Option<Buckety>) {
    bky.Some? && bky.value.finalizer
  }

  /** What an access pass in progress relies on. */
  ghost predicate PassSound(bky: Option<Buckety>, accesses: map<string, Access>, name: string, pc: AccessPc) {
    !pc.AIdle? ==>
      name in accesses && accesses[name].finalizer &&
      match pc
      case Committing(_) => Held(bky)
      case Dropping(_, found) => !found ==> bky.None?
      case Droppable(recorded, revoked) => recorded == accesses[name].principal && recorded.Revocable? ==> revoked
      case AIdle => true
  }

  /** The central claim: an access with a recorded revocable credential has its
      finalizer, and its Buckety, held back by the Buckety's finalizer. */
  ghost predicate Anchored(bky: Option<Buckety>, accesses: map<string, Access>) {
    forall name <- accesses :: accesses[name].principal.Revocable? ==> accesses[name].finalizer && Held(bky)
  }

  /** Accesses that came after the list and can do no harm: the pass will not
      release, or nothing can be granted and nothing was. */
  ghost predicate Harmless(s: State)
    requires s.bpc.Cleared? || s.bpc.Releasing?
  {
    var copy := s.bpc.copy;
    || s.bky != Some(copy)
    || (s.bpc.Cleared? && DeletesBackend(copy) && Unavailable(s.driver, copy))
    || (&& !(copy.ready && copy.stamp.Some? && s.driver.Some?)
        && (forall name <- s.accesses :: !s.accesses[name].principal.Revocable?)
        && (forall name <- s.apc :: !s.apc[name].Committing?))
  }

  ghost predicate Protected(s: State) {
    && FinalizerKept(s.copies, s.bky)
    && (s.bpc.Serving? || s.bpc.Inspected? ==> s.bpc.copy.finalizer)
    && (s.bpc.Cleared? || s.bpc.Releasing? ==> s.accesses == map[] || Harmless(s))
    && Anchored(s.bky, s.accesses)
    && (forall name <- s.apc :: PassSound(s.bky, s.accesses, name, s.apc[name]))
  }

  lemma ProvisionProtected(s: State, b: ProvisionStep)
    requires Sticky(s) && Protected(s) && ProvisionEnabled(s, b)
    ensures Protected(ProvisionNext(s, b))
  {
  }

  lemma TeardownProtected(s: State, t: TeardownStep)
    requires Sticky(s) && Protected(s) && TeardownEnabled(s, t)
    ensures Protected(TeardownNext(s, t))
  {
  }

  lemma AccessProtected(s: State, name: string, a: AccessStep)
    requires Sticky(s) && Protected(s) && AccessEnabled(s, name, a)
    ensures Protected(AccessNext(s, name, a))
  {
  }

  lemma UserProtected(s: State, u: UserStep)
    requires Sticky(s) && Protected(s) && UserEnabled(s, u) && !Races(s, OfUser(u))
    ensures Protected(UserNext(s, u))
  {
  }

  lemma {:induction false} RunProtected(s: State, run: seq<Event>)
    requires Safe(s) && Protected(s) && Legal(s, run) && NoRace(s, run)
    ensures Safe(Run(s, run)) && Protected(Run(s, run))
    decreases |run|
  {
    if run != [] {
      match run[0] {
        case OfProvision(b) => ProvisionSafe(s, b); ProvisionProtected(s, b);
        case OfTeardown(t) => TeardownSafe(s, t); TeardownProtected(s, t);
        case OfAccess(name, a) => AccessSafe(s, name, a); AccessProtected(s, name, a);
        case OfUser(u) => UserSafe(s, u); UserProtected(s, u);
      }
      RunProtected(Next(s, run[0]), run[1..]);
    }
  }

  /** In every run without a creation in that window, a recorded revocable
      credential has its Buckety held by the finalizer, so no pass finds that
      Buckety missing; and the access goes only in a pass whose RevokeAccess
      returned nil. */
  lemma CredentialsAnchored(s: State, run: seq<Event>)
    requires Init(s) && Legal(s, run) && NoRace(s, run)
    ensures
      var t := Run(s, run);
      forall name <- t.accesses :: t.accesses[name].principal.Revocable? ==>
        && Held(t.bky)
        && !AccessEnabled(t, name, DropOrphan)
        && (AccessEnabled(t, name, AccessReleaseOk) ==> PcOf(t, name) == Droppable(t.accesses[name].principal, true))
  {
    RunProtected(s, run);
  }

  /** The step of a teardown pass that clears the backend with every call answered. */
  function Clearing(s: State): seq<Event>
    requires s.bpc.Cleared? || s.bpc.Releasing?
  {
    if s.bpc.Releasing? then []
    else if DeletesBackend(s.bpc.copy) then [OfTeardown(DeleteOk)]
    else if s.bpc.copy.retention == Delete && s.bpc.copy.stamp.Some? then [OfTeardown(KeepAdopted)]
    else [OfTeardown(NothingToDelete)]
  }

  function Granting(name: string, id: nat): seq<Event> {
    [OfUser(CreateAccess(name)), OfAccess(name, AddAccessFinalizer), OfAccess(name, Grant(Revocable(id)))]
  }

  lemma WindowGrants(s: State, name: string, id: nat)
    requires Window(s) && name !in s.accesses && PcOf(s, name).AIdle?
    ensures Legal(s, Granting(name, id))
    ensures Run(s, Granting(name, id)) == WithPc(s, name, Committing(Revocable(id))).(
              accesses := s.accesses[name := Access(false, true, false, NoPrincipal)])
  {
    var created, held, granted :=
      OfUser(CreateAccess(name)), OfAccess(name, AddAccessFinalizer), OfAccess(name, Grant(Revocable(id)));
    RunExtended(s, [], created);
    assert [] + [created] == [created] && [created] + [held] == [created, held];
    assert [created, held] + [granted] == Granting(name, id);
    RunExtended(s, [created], held);
    RunExtended(s, [created, held], granted);
  }

  lemma {:induction false} RunJoin(s: State, a: seq<Event>, b: seq<Event>)
    requires Legal(s, a) && Legal(Run(s, a), b)
    ensures Legal(s, a + b) && Run(s, a + b) == Run(Run(s, a), b)
    decreases |a|
  {
    if a == [] {
      assert a + b == b;
    } else {
      RunJoin(Next(s, a[0]), a[1..], b);
      assert (a + b)[1..] == a[1..] + b;
    }
  }

  /** With the grant under way, the Buckety is released and the credential then recorded. */
  lemma ReleasedUnder(s: State, name: string, id: nat)
    requires Window(s) && PcOf(s, name) == Committing(Revocable(id)) && name in s.accesses && s.accesses[name].finalizer
    ensures
      var rest := Clearing(s) + [OfTeardown(ReleaseOk), OfAccess(name, RecordOk)];
      && Legal(s, rest)
      && var t := Run(s, rest);
         t.bky.None? && name in t.accesses && t.accesses[name].finalizer && t.accesses[name].principal == Revocable(id) &&
         PcOf(t, name).AIdle?
  {
    if s.bpc.Cleared? {
      RunExtended(s, [], Clearing(s)[0]);
      assert Clearing(s) == [] + [Clearing(s)[0]];
    }
    var cleared := Run(s, Clearing(s));
    RunExtended(s, Clearing(s), OfTeardown(ReleaseOk));
    RunExtended(s, Clearing(s) + [OfTeardown(ReleaseOk)], OfAccess(name, RecordOk));
    assert Clearing(s) + [OfTeardown(ReleaseOk)] + [OfAccess(name, RecordOk)]
        == Clearing(s) + [OfTeardown(ReleaseOk), OfAccess(name, RecordOk)];
  }

  /** The condition is exact: from every state of that window an access created
      there leads, with every call succeeding, to a recorded revocable credential
      without its Buckety, and then to the access being released with nothing ever
      revoked. */
  lemma WindowOrphans(s: State, name: string, id: nat) returns (orphaned: seq<Event>, dropped: seq<Event>)
    requires Window(s) && name !in s.accesses && PcOf(s, name).AIdle?
    ensures orphaned == Granting(name, id) + (Clearing(s) + [OfTeardown(ReleaseOk), OfAccess(name, RecordOk)])
    ensures dropped ==
      [OfUser(DeleteAccess(name)), OfAccess(name, BeginDrop(Revocable(id))), OfAccess(name, DropOrphan),
       OfAccess(name, AccessReleaseOk)]
    ensures Legal(s, orphaned)
    ensures
      var t := Run(s, orphaned);
      t.bky.None? && name in t.accesses && t.accesses[name].principal == Revocable(id) &&
      Legal(t, dropped) && name !in Run(t, dropped).accesses
  {
    WindowGrants(s, name, id);
    var granted := Run(s, Granting(name, id));
    assert Clearing(granted) == Clearing(s);
    ReleasedUnder(granted, name, id);
    orphaned := Granting(name, id) + (Clearing(s) + [OfTeardown(ReleaseOk), OfAccess(name, RecordOk)]);
    RunJoin(s, Granting(name, id), Clearing(s) + [OfTeardown(ReleaseOk), OfAccess(name, RecordOk)]);
    dropped := DropUnrevoked(Run(s, orphaned), name);
  }

  /** And the window is reached, from any new Buckety whose backend is there and
      whatever its first inspection finds, as long as it may be claimed. */
  lemma WindowReached(s: State, resource: string, report: Inspection) returns (run: seq<Event>)
    requires Init(s) && s.bky.value.stamp.None? && !s.bky.value.finalizer && s.driver.Some?
    requires DecideProvenance(report, s.bky.value.adoption).Some?
    ensures Legal(s, run) && Window(Run(s, run)) && Run(s, run).accesses == map[] && Run(s, run).apc == map[]
  {
    var b0 := s.bky.value;
    var b1 := b0.(finalizer := true, rv := b0.rv + 1);
    RunExtended(s, [], OfProvision(AddFinalizer(b0)));
    run := [OfProvision(AddFinalizer(b0))];
    RunExtended(s, run, OfProvision(Inspect(b1, resource, report)));
    run := run + [OfProvision(Inspect(b1, resource, report))];
    RunExtended(s, run, OfProvision(StampOk));
    run := run + [OfProvision(StampOk)];
    var stamped := Run(s, run);
    assert stamped.bpc.BIdle? && stamped.accesses == map[] && stamped.apc == map[] && stamped.driver == s.driver;
    var rest := StampedReaches(stamped);
    RunJoin(s, run, rest);
    run := run + rest;
  }

  lemma StampedReaches(s: State) returns (run: seq<Event>)
    requires s.bpc.BIdle? && s.bky.Some? && s.bky.value in s.copies && s.accesses == map[] && s.apc == map[]
    requires var b := s.bky.value; b.stamp.Some? && b.finalizer && !b.deleting && !Unavailable(s.driver, b)
    ensures Legal(s, run) && Window(Run(s, run)) && Run(s, run).accesses == map[] && Run(s, run).apc == map[]
  {
    var b := s.bky.value;
    RunExtended(s, [], OfProvision(Serve(b)));
    run := [OfProvision(Serve(b))];
    RunExtended(s, run, OfProvision(Report(true)));
    run := run + [OfProvision(Report(true))];
    RunExtended(s, run, OfUser(DeleteBuckety));
    run := run + [OfUser(DeleteBuckety)];
    var last := Run(s, run).bky.value;
    RunExtended(s, run, OfTeardown(Tear(last)));
    run := run + [OfTeardown(Tear(last))];
    RunExtended(s, run, OfTeardown(ListClear));
    run := run + [OfTeardown(ListClear)];
  }

  /** End to end: a run from a new Buckety to a recorded revocable credential
      whose Buckety is gone. */
  lemma OrphanedFromStart(s: State, resource: string, report: Inspection, name: string, id: nat) returns (run: seq<Event>)
    requires Init(s) && s.bky.value.stamp.None? && !s.bky.value.finalizer && s.driver.Some?
    requires DecideProvenance(report, s.bky.value.adoption).Some?
    ensures Legal(s, run)
    ensures var t := Run(s, run); t.bky.None? && name in t.accesses && t.accesses[name].principal == Revocable(id)
  {
    var before := WindowReached(s, resource, report);
    var orphaned, _ := WindowOrphans(Run(s, before), name, id);
    RunJoin(s, before, orphaned);
    run := before + orphaned;
  }

  /** Once its Buckety is gone, an access is released with nothing revoked. */
  lemma DropUnrevoked(s: State, name: string) returns (dropped: seq<Event>)
    requires s.bky.None? && name in s.accesses && s.accesses[name].finalizer && PcOf(s, name).AIdle?
    ensures dropped ==
      [OfUser(DeleteAccess(name)), OfAccess(name, BeginDrop(s.accesses[name].principal)), OfAccess(name, DropOrphan),
       OfAccess(name, AccessReleaseOk)]
    ensures Legal(s, dropped) && name !in Run(s, dropped).accesses
  {
    var p := s.accesses[name].principal;
    dropped := [];
    RunExtended(s, dropped, OfUser(DeleteAccess(name)));
    dropped := dropped + [OfUser(DeleteAccess(name))];
    RunExtended(s, dropped, OfAccess(name, BeginDrop(p)));
    dropped := dropped + [OfAccess(name, BeginDrop(p))];
    RunExtended(s, dropped, OfAccess(name, DropOrphan));
    dropped := dropped + [OfAccess(name, DropOrphan)];
    RunExtended(s, dropped, OfAccess(name, AccessReleaseOk));
    dropped := dropped + [OfAccess(name, AccessReleaseOk)];
  }
}
