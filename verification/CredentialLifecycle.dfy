/** The life of the service account keys minted for one BucketyAccess.

    One reconcile pass reads the access and its Secret, reuses or mints a key,
    writes the Secret, revokes the predecessor and records the principal.  Each
    of these is a separate call that can fail, the process can crash between
    any two, users edit the Secret meanwhile, and the pass may have started
    from a stale copy of the access.  The machine below takes one such call (or
    one outside event) per step.
 */
module CredentialLifecycle {

  import opened Wrappers

  /** A user-managed key: the service account it belongs to and its key id. */
  datatype Key = Key(account: string, id: nat)

  /** status.principal: a key's resource name, the shared static principal, or unset. */
  datatype Principal = NoPrincipal | StaticPrincipal | KeyPrincipal(key: Key)

  /** The credentials Secret.  `carried` is the key its data parses to, if any. */
  datatype Secret = Absent | Foreign | Owned(carried: Option<Key>)

  /** Where the running pass is; the pass's own memory, lost in a crash. */
  datatype Pc =
    | Idle
    | Gated(recorded: Principal, seen: Secret, rev: nat, sa: Option<string>)
    | Granted(recorded: Principal, seen: Secret, rev: nat, result: Principal, minted: bool)
    | Unwritten(key: Key)
    | Written(recorded: Principal, result: Principal)
    | Recording(recorded: Principal, result: Principal)
    | Dropping(recorded: Principal)
    | Dropped(recorded: Principal)

  datatype State = State(
    live: set<Key>,               // keys that exist on the server
    expired: set<Key>,            // keys past their validity
    minted: set<Key>,             // keys ever created for this access
    revoked: set<Key>,            // keys the controller deleted
    gone: set<Key>,               // keys deleted at the server by anyone else
    nextId: nat,                  // ids are never reused by the server
    secret: Secret,
    secretRev: nat,               // resourceVersion of the Secret's name
    principal: Principal,         // status.principal as stored
    past: set<Principal>,         // every value status.principal has had
    sa: Option<string>,           // service account the Buckety's parameters name
    deleting: bool,               // deletionTimestamp set
    dropSeen: bool,               // a pass has seen the deletionTimestamp
    released: bool,               // finalizer removed, object gone
    pc: Pc)

  /** GrantAccess of the gcs driver, from reading the access to having a result. */
  datatype GrantCall =
    | Begin(recorded: Principal)
    | GrantStatic
    | Reuse(listing: set<Key>)
    | Mint(listing: set<Key>)
    | MintUndecodable(listing: set<Key>)   // or the answer of a create that landed is lost: the same effect
    | GrantFails

  /** writeSecret, and the best-effort revocation when it fails. */
  datatype StoreCall = WriteOk | WriteSkipped | WriteFails | CleanupOk | CleanupFails

  /** Revoking the predecessor and recording the principal. */
  datatype SettleCall = NothingToReplace | ReplaceOk | ReplaceFails | RecordOk | RecordFails

  /** The deletion path, and a crash anywhere. */
  datatype LeaveCall =
    | BeginDrop(recorded: Principal)
    | DropOk
    | DropSkipped
    | DropOrphaned
    | DropFails
    | ReleaseOk
    | ReleaseFails
    | Crash

  /** What users, the server's clock and Buckety edits do.  A service account
      deleted with its bucket takes its keys with it, one change each. */
  datatype OutsideChange =
    | SecretDeleted
    | SecretEdited(carried: Option<Key>)
    | SecretTaken
    | Expire(key: Key)
    | KeyGone(key: Key)
    | AccountChanged(sa: Option<string>)
    | MarkedForDeletion

  datatype Event =
    | Grant(grant: GrantCall)
    | Store(store: StoreCall)
    | Settle(settle: SettleCall)
    | Leave(leave: LeaveCall)
    | Outside(change: OutsideChange)

  const EMPTY := State({}, {}, {}, {}, {}, 0, Absent, 0, NoPrincipal, {NoPrincipal}, None, false, false, false, Idle)

  ghost predicate Init(s: State) {
    s == EMPTY.(sa := s.sa, live := s.live, nextId := s.nextId)
    && (forall k <- s.live :: k.id < s.nextId)
  }

  // ---- What the code decides in each step ----

  function Carries(secret: Secret): Option<Key> {
    if secret.Owned? then secret.carried else None
  }

  function KeyOf(p: Principal): Option<Key> {
    if p.KeyPrincipal? then Some(p.key) else None
  }

  predicate Issued(nextId: nat, k: Option<Key>) {
    k.Some? ==> k.value.id < nextId
  }

  /** ensureAccessKey's reuse test short of the listing: the Secret's key parses and is for `sa`. */
  predicate Candidate(seen: Secret, sa: Option<string>) {
    sa.Some? && Carries(seen).Some? && Carries(seen).value.account == sa.value
  }

  /** keys.list is the only evidence of expiry; a key it does not list is not expired. */
  predicate ShownExpired(s: State, k: Key, listing: set<Key>) {
    k in listing && k in s.expired
  }

  predicate Reuses(s: State, seen: Secret, sa: Option<string>, listing: set<Key>) {
    Candidate(seen, sa) && !ShownExpired(s, Carries(seen).value, listing)
  }

  /** The condition of the reconciler's replacement branch: old != "" && old != res.Principal. */
  predicate Replaces(pc: Pc)
    requires pc.Written?
  {
    pc.recorded != NoPrincipal && pc.recorded != pc.result
  }

  /** RevokeAccess returned nil: a key is gone, any other principal is a no-op. */
  function Revoke(s: State, p: Principal): State {
    match p
    case KeyPrincipal(k) => s.(live := s.live - {k}, revoked := s.revoked + {k})
    case _ => s
  }

  function Create(s: State, account: string): State {
    var k := Key(account, s.nextId);
    s.(live := s.live + {k}, minted := s.minted + {k}, nextId := s.nextId + 1)
  }

  function WithSecret(s: State, secret: Secret): State {
    s.(secret := secret, secretRev := s.secretRev + 1)
  }

  // ---- Steps: when each may happen, and what it leaves ----

  predicate GrantEnabled(s: State, c: GrantCall) {
    match c
    case Begin(recorded) =>
      s.pc.Idle? && !s.dropSeen && !s.released && recorded in s.past && !s.secret.Foreign?
    case GrantStatic => s.pc.Gated? && s.pc.sa.None?
    case Reuse(listing) => s.pc.Gated? && Reuses(s, s.pc.seen, s.pc.sa, listing)
    case Mint(listing) => s.pc.Gated? && s.pc.sa.Some? && !Reuses(s, s.pc.seen, s.pc.sa, listing)
    case MintUndecodable(listing) => s.pc.Gated? && s.pc.sa.Some? && !Reuses(s, s.pc.seen, s.pc.sa, listing)
    case GrantFails => s.pc.Gated?
  }

  function GrantNext(s: State, c: GrantCall): State
    requires GrantEnabled(s, c)
  {
    match c
    case Begin(recorded) => s.(pc := Gated(recorded, s.secret, s.secretRev, s.sa))
    case GrantStatic => s.(pc := Granted(s.pc.recorded, s.pc.seen, s.pc.rev, StaticPrincipal, false))
    case Reuse(_) =>
      s.(pc := Granted(s.pc.recorded, s.pc.seen, s.pc.rev, KeyPrincipal(Carries(s.pc.seen).value), false))
    case Mint(_) =>
      Create(s, s.pc.sa.value)
      .(pc := Granted(s.pc.recorded, s.pc.seen, s.pc.rev, KeyPrincipal(Key(s.pc.sa.value, s.nextId)), true))
    case MintUndecodable(_) => Create(s, s.pc.sa.value).(pc := Idle)
    case GrantFails => s.(pc := Idle)
  }

  predicate StoreEnabled(s: State, c: StoreCall) {
    match c
    // the update carries the resourceVersion read, the create fails if the name is taken
    case WriteOk => s.pc.Granted? && s.pc.rev == s.secretRev
    case WriteSkipped => s.pc.Granted? && s.pc.seen == Owned(KeyOf(s.pc.result))
    case WriteFails => s.pc.Granted?
    case CleanupOk => s.pc.Unwritten?
    case CleanupFails => s.pc.Unwritten?
  }

  function StoreNext(s: State, c: StoreCall): State
    requires StoreEnabled(s, c)
  {
    match c
    case WriteOk => WithSecret(s, Owned(KeyOf(s.pc.result))).(pc := Written(s.pc.recorded, s.pc.result))
    case WriteSkipped => s.(pc := Written(s.pc.recorded, s.pc.result))
    case WriteFails =>
      s.(pc := if s.pc.minted && s.pc.result.KeyPrincipal? then Unwritten(s.pc.result.key) else Idle)
    case CleanupOk => Revoke(s, KeyPrincipal(s.pc.key)).(pc := Idle)
    case CleanupFails => s.(pc := Idle)
  }

  predicate SettleEnabled(s: State, c: SettleCall) {
    match c
    case NothingToReplace => s.pc.Written? && !Replaces(s.pc)
    case ReplaceOk => s.pc.Written? && Replaces(s.pc)
    case ReplaceFails => s.pc.Written? && Replaces(s.pc)
    case RecordOk => s.pc.Recording?
    case RecordFails => s.pc.Recording?
  }

  function SettleNext(s: State, c: SettleCall): State
    requires SettleEnabled(s, c)
  {
    match c
    case NothingToReplace => s.(pc := Recording(s.pc.recorded, s.pc.result))
    case ReplaceOk => Revoke(s, s.pc.recorded).(pc := Recording(s.pc.recorded, s.pc.result))
    case ReplaceFails => s.(pc := Idle)
    case RecordOk =>
      // a merge patch against the copy the pass read: no difference, no write
      if s.pc.recorded == s.pc.result then s.(pc := Idle)
      else s.(principal := s.pc.result, past := s.past + {s.pc.result}, pc := Idle)
    case RecordFails => s.(pc := Idle)
  }

  predicate LeaveEnabled(s: State, c: LeaveCall) {
    match c
    case BeginDrop(recorded) => s.pc.Idle? && s.deleting && !s.released && recorded in s.past
    case DropOk => s.pc.Dropping?
    case DropSkipped => s.pc.Dropping? && !s.pc.recorded.KeyPrincipal?
    case DropOrphaned => s.pc.Dropping?
    case DropFails => s.pc.Dropping?
    // the finalizer update carries the resourceVersion read, so a stale copy conflicts
    case ReleaseOk => s.pc.Dropped? && s.pc.recorded == s.principal
    case ReleaseFails => s.pc.Dropped?
    case Crash => true
  }

  function LeaveNext(s: State, c: LeaveCall): State
    requires LeaveEnabled(s, c)
  {
    match c
    case BeginDrop(recorded) => s.(pc := Dropping(recorded), dropSeen := true)
    case DropOk => Revoke(s, s.pc.recorded).(pc := Dropped(s.pc.recorded))
    case DropSkipped => s.(pc := Dropped(s.pc.recorded))
    case DropOrphaned => s.(pc := Dropped(s.pc.recorded))   // the Buckety is gone, no backend to ask
    case DropFails => s.(pc := Idle)
    // owner references take the access's own Secret along, never a foreign one
    case ReleaseOk => (if s.secret.Foreign? then s else WithSecret(s, Absent)).(released := true, pc := Idle)
    case ReleaseFails => s.(pc := Idle)
    case Crash => s.(pc := Idle)
  }

  predicate OutsideEnabled(s: State, c: OutsideChange) {
    match c
    case SecretDeleted => !s.released && !s.secret.Absent?
    case SecretEdited(carried) =>
      // whatever is pasted, the server issued it: ids are not guessed ahead of time
      !s.released && s.secret.Owned? && Issued(s.nextId, carried)
    case SecretTaken => !s.released
    case Expire(k) => Issued(s.nextId, Some(k))
    case KeyGone(k) => k in s.live
    case AccountChanged(_) => true
    case MarkedForDeletion => true
  }

  function OutsideNext(s: State, c: OutsideChange): State
    requires OutsideEnabled(s, c)
  {
    match c
    case SecretDeleted => WithSecret(s, Absent)
    case SecretEdited(carried) => WithSecret(s, Owned(carried))
    case SecretTaken => WithSecret(s, Foreign)
    case Expire(k) => s.(expired := s.expired + {k})
    case KeyGone(k) => s.(live := s.live - {k}, gone := s.gone + {k})
    case AccountChanged(sa) => s.(sa := sa)
    case MarkedForDeletion => s.(deleting := true)
  }

  predicate Enabled(s: State, e: Event) {
    match e
    case Grant(c) => GrantEnabled(s, c)
    case Store(c) => StoreEnabled(s, c)
    case Settle(c) => SettleEnabled(s, c)
    case Leave(c) => LeaveEnabled(s, c)
    case Outside(c) => OutsideEnabled(s, c)
  }

  function Next(s: State, e: Event): State
    requires Enabled(s, e)
  {
    match e
    case Grant(c) => GrantNext(s, c)
    case Store(c) => StoreNext(s, c)
    case Settle(c) => SettleNext(s, c)
    case Leave(c) => LeaveNext(s, c)
    case Outside(c) => OutsideNext(s, c)
  }

  predicate Legal(s: State, run: seq<Event>)
    decreases |run|
  {
    run == [] || (Enabled(s, run[0]) && Legal(Next(s, run[0]), run[1..]))
  }

  function Run(s: State, run: seq<Event>): State
    requires Legal(s, run)
    decreases |run|
  {
    if run == [] then s else Run(Next(s, run[0]), run[1..])
  }

  /** One more step at the end of a run. */
  lemma {:induction false} RunExtended(s: State, run: seq<Event>, e: Event)
    requires Legal(s, run) && Enabled(Run(s, run), e)
    ensures Legal(s, run + [e]) && Run(s, run + [e]) == Next(Run(s, run), e)
    decreases |run|
  {
    if run != [] {
      RunExtended(Next(s, run[0]), run[1..], e);
      assert (run + [e])[1..] == run[1..] + [e];
    }
  }

  // ---- Who still holds a key ----

  function AsSet(k: Option<Key>): set<Key> {
    if k.Some? then {k.value} else {}
  }

  /** The key the running pass answers for, besides what Secret and status hold:
      the one it has read and may reuse, or the one it has granted. */
  function InFlight(pc: Pc): Option<Key> {
    match pc
    case Gated(_, seen, _, sa) => if Candidate(seen, sa) then Carries(seen) else None
    case Granted(_, _, _, result, _) => KeyOf(result)
    case Unwritten(k) => Some(k)
    case Written(_, result) => KeyOf(result)
    case Recording(_, result) => KeyOf(result)
    case _ => None
  }

  /** Keys found again through the Secret, through status or by the pass; none once the access is gone. */
  function Held(s: State): set<Key> {
    if s.released then {} else AsSet(Carries(s.secret)) + AsSet(KeyOf(s.principal)) + AsSet(InFlight(s.pc))
  }

  /** Live keys minted for the access that nothing refers to any more. */
  function Leaked(s: State): set<Key> {
    (s.minted * s.live) - Held(s)
  }

  predicate MintedLive(s: State, k: Key) {
    k in s.minted && k in s.live
  }

  /** A key minted here that nobody but an outsider can have deleted. */
  predicate MintedOrGone(s: State, k: Key) {
    k in s.minted && k in s.live + s.gone
  }

  /** The Secret as the running pass read it. */
  function SnapshotOf(pc: Pc): Secret {
    match pc
    case Gated(_, seen, _, _) => seen
    case Granted(_, seen, _, _, _) => seen
    case _ => Absent
  }

  // ---- Invariants of every run ----

  /** Every key anyone refers to has an id the server has already given out. */
  ghost predicate IdsIssued(s: State) {
    && (forall k <- s.live :: k.id < s.nextId)
    && (forall k <- s.minted :: k.id < s.nextId)
    && (forall k <- s.gone :: k.id < s.nextId)
    && (forall k <- s.expired :: k.id < s.nextId)
    && (forall p <- s.past :: Issued(s.nextId, KeyOf(p)))
    && Issued(s.nextId, Carries(s.secret))
    && Issued(s.nextId, Carries(SnapshotOf(s.pc)))
    && Issued(s.nextId, InFlight(s.pc))
  }

  /** What the running pass remembers is true of the world. */
  ghost predicate PassShape(s: State) {
    && s.minted <= s.live + s.revoked + s.gone
    && s.live !! s.gone
    && s.principal in s.past
    && (s.released ==> s.pc.Idle?)
    && (s.released || s.pc.Dropping? || s.pc.Dropped? ==> s.dropSeen)
    && (s.pc.Granted? || s.pc.Written? || s.pc.Recording? ==> !s.pc.result.NoPrincipal?)
    && (s.pc.Recording? && s.pc.recorded != s.pc.result && s.pc.recorded.KeyPrincipal? ==>
        s.pc.recorded.key !in s.live)
    && (s.pc.Granted? && s.pc.minted ==> s.pc.result.KeyPrincipal? && MintedOrGone(s, s.pc.result.key))
    && (s.pc.Unwritten? ==> MintedOrGone(s, s.pc.key))
  }

  ghost predicate Inv(s: State) {
    IdsIssued(s) && PassShape(s)
  }

  lemma InitInv(s: State)
    requires Init(s)
    ensures Inv(s) && Leaked(s) == {}
  {
  }

  // ---- Leak accounting ----

  /** A key of this access that only the running pass answers for. */
  predicate PassHoldsAlone(s: State) {
    var k := InFlight(s.pc);
    k.Some? && MintedLive(s, k.value) && k != Carries(s.secret) && k != KeyOf(s.principal)
  }

  /** A key of this access that only the Secret carries. */
  predicate SecretHoldsAlone(s: State) {
    var k := Carries(s.secret);
    k.Some? && MintedLive(s, k.value) && k != KeyOf(s.principal) && k != InFlight(s.pc)
  }

  /** The guard, readable before the step, of every way to lose the last
      reference to a live key. */
  predicate Leaks(s: State, e: Event)
    requires Enabled(s, e)
  {
    match e
    case Grant(MintUndecodable(_)) => true
    case Grant(Mint(_)) => PassHoldsAlone(s)
    case Grant(GrantFails) => PassHoldsAlone(s)
    case Store(CleanupFails) => PassHoldsAlone(s)
    case Store(WriteFails) => !s.pc.minted && PassHoldsAlone(s)
    case Store(WriteOk) => SecretHoldsAlone(s)
    case Settle(ReplaceFails) => PassHoldsAlone(s)
    case Settle(RecordFails) => PassHoldsAlone(s)
    case Settle(RecordOk) =>
      // only a stale copy leaks here: one whose principal is not the stored one
      if s.pc.recorded == s.pc.result then PassHoldsAlone(s)
      else
        s.principal != s.pc.recorded && s.principal.KeyPrincipal? && s.principal != s.pc.result &&
        MintedLive(s, s.principal.key) && KeyOf(s.principal) != Carries(s.secret)
    case Leave(Crash) => PassHoldsAlone(s)
    case Leave(ReleaseOk) =>
      exists k <- AsSet(Carries(s.secret)) + AsSet(KeyOf(s.principal)) :: MintedLive(s, k)
    case Outside(SecretDeleted) => SecretHoldsAlone(s)
    case Outside(SecretTaken) => SecretHoldsAlone(s)
    case Outside(SecretEdited(carried)) => SecretHoldsAlone(s) && carried != Carries(s.secret)
    case _ => false
  }

  /** The step loses a live key exactly when its guard holds. */
  ghost predicate Accounted(s: State, e: Event)
    requires Enabled(s, e)
  {
    Leaks(s, e) <==> !(Leaked(Next(s, e)) <= Leaked(s))
  }

  lemma GrantInv(s: State, c: GrantCall)
    requires Inv(s) && GrantEnabled(s, c)
    ensures Inv(GrantNext(s, c))
  {
  }

  lemma GrantAccounted(s: State, c: GrantCall)
    requires Inv(s) && GrantEnabled(s, c)
    ensures Accounted(s, Grant(c))
  {
    if c.MintUndecodable? {
      assert Key(s.pc.sa.value, s.nextId) in Leaked(GrantNext(s, c)) - Leaked(s);
    }
  }

  lemma StoreInv(s: State, c: StoreCall)
    requires Inv(s) && StoreEnabled(s, c)
    ensures Inv(StoreNext(s, c))
  {
  }

  lemma StoreAccounted(s: State, c: StoreCall)
    requires Inv(s) && StoreEnabled(s, c)
    ensures Inv(StoreNext(s, c)) && Accounted(s, Store(c))
  {
    StoreInv(s, c);
    hide IdsIssued;
  }

  lemma SettleInv(s: State, c: SettleCall)
    requires Inv(s) && SettleEnabled(s, c)
    ensures Inv(SettleNext(s, c))
  {
  }

  lemma SettleAccounted(s: State, c: SettleCall)
    requires Inv(s) && SettleEnabled(s, c)
    ensures Accounted(s, Settle(c))
  {
    hide IdsIssued;
  }

  lemma LeaveInv(s: State, c: LeaveCall)
    requires Inv(s) && LeaveEnabled(s, c)
    ensures Inv(LeaveNext(s, c))
  {
  }

  lemma LeaveAccounted(s: State, c: LeaveCall)
    requires Inv(s) && LeaveEnabled(s, c)
    ensures Accounted(s, Leave(c))
  {
    if c.ReleaseOk? && Leaks(s, Leave(c)) {
      var k :| k in AsSet(Carries(s.secret)) + AsSet(KeyOf(s.principal)) && MintedLive(s, k);
      assert k in Leaked(LeaveNext(s, c)) - Leaked(s);
    }
  }

  lemma OutsideInv(s: State, c: OutsideChange)
    requires Inv(s) && OutsideEnabled(s, c)
    ensures Inv(OutsideNext(s, c))
  {
  }

  lemma OutsideAccounted(s: State, c: OutsideChange)
    requires Inv(s) && OutsideEnabled(s, c)
    ensures Inv(OutsideNext(s, c)) && Accounted(s, Outside(c))
  {
    OutsideInv(s, c);
    hide Inv;
  }

  /** Whatever one step does, it loses the last reference to a live key exactly
      when its guard holds. */
  lemma LeakExactly(s: State, e: Event)
    requires Inv(s) && Enabled(s, e)
    ensures Inv(Next(s, e))
    ensures Leaks(s, e) <==> !(Leaked(Next(s, e)) <= Leaked(s))
  {
    match e
    case Grant(c) => GrantInv(s, c); GrantAccounted(s, c);
    case Store(c) => StoreAccounted(s, c);
    case Settle(c) => SettleInv(s, c); SettleAccounted(s, c);
    case Leave(c) => LeaveInv(s, c); LeaveAccounted(s, c);
    case Outside(c) => OutsideAccounted(s, c);
  }

  predicate NeverLeaks(s: State, run: seq<Event>)
    requires Legal(s, run)
    decreases |run|
  {
    run == [] || (!Leaks(s, run[0]) && NeverLeaks(Next(s, run[0]), run[1..]))
  }

  /** Over a whole run: a run without a leaking step has no leaked key at its end. */
  lemma {:induction false} RunAccounted(s: State, run: seq<Event>)
    requires Inv(s) && Legal(s, run)
    ensures Inv(Run(s, run))
    ensures NeverLeaks(s, run) ==> Leaked(Run(s, run)) <= Leaked(s)
    decreases |run|
  {
    if run != [] {
      LeakExactly(s, run[0]);
      RunAccounted(Next(s, run[0]), run[1..]);
    }
  }

  /** Every access starts with nothing leaked, and a run without a leaking step
      keeps it so. */
  lemma NothingLeaksFromStart(s: State, run: seq<Event>)
    requires Init(s) && Legal(s, run) && NeverLeaks(s, run)
    ensures Leaked(Run(s, run)) == {}
  {
    InitInv(s);
    RunAccounted(s, run);
  }

  // ---- A leaked key stays leaked ----

  /** The only ways for a key to stop being leaked: a pass on a stale copy that
      still names it, someone pasting it back into the Secret, or its deletion at
      the server. */
  predicate Reclaims(s: State, e: Event)
    requires Enabled(s, e)
  {
    match e
    case Settle(ReplaceOk) => AsSet(KeyOf(s.pc.recorded)) * Leaked(s) != {}
    case Leave(DropOk) => AsSet(KeyOf(s.pc.recorded)) * Leaked(s) != {}
    case Outside(SecretEdited(carried)) => AsSet(carried) * Leaked(s) != {}
    case Outside(KeyGone(k)) => k in Leaked(s)
    case _ => false
  }

  lemma ReclaimsExactly(s: State, e: Event)
    requires Inv(s) && Enabled(s, e)
    ensures Reclaims(s, e) <==> !(Leaked(s) <= Leaked(Next(s, e)))
  {
    match e
    case Grant(c) => GrantReclaims(s, c);
    case Store(c) => StoreReclaims(s, c);
    case Settle(c) => SettleReclaims(s, c);
    case Leave(c) => LeaveReclaims(s, c);
    case Outside(c) => OutsideReclaims(s, c);
  }

  lemma GrantReclaims(s: State, c: GrantCall)
    requires Inv(s) && GrantEnabled(s, c)
    ensures Leaked(s) <= Leaked(GrantNext(s, c))
  {
  }

  lemma StoreReclaims(s: State, c: StoreCall)
    requires Inv(s) && StoreEnabled(s, c)
    ensures Leaked(s) <= Leaked(StoreNext(s, c))
  {
  }

  lemma SettleReclaims(s: State, c: SettleCall)
    requires Inv(s) && SettleEnabled(s, c)
    ensures Reclaims(s, Settle(c)) <==> !(Leaked(s) <= Leaked(SettleNext(s, c)))
  {
    if c.ReplaceOk? && Reclaims(s, Settle(c)) {
      var k :| k in AsSet(KeyOf(s.pc.recorded)) * Leaked(s);
      assert k !in Leaked(SettleNext(s, c));
    }
  }

  lemma LeaveReclaims(s: State, c: LeaveCall)
    requires Inv(s) && LeaveEnabled(s, c)
    ensures Reclaims(s, Leave(c)) <==> !(Leaked(s) <= Leaked(LeaveNext(s, c)))
  {
    if c.DropOk? && Reclaims(s, Leave(c)) {
      var k :| k in AsSet(KeyOf(s.pc.recorded)) * Leaked(s);
      assert k !in Leaked(LeaveNext(s, c));
    }
  }

  lemma OutsideReclaims(s: State, c: OutsideChange)
    requires Inv(s) && OutsideEnabled(s, c)
    ensures Reclaims(s, Outside(c)) <==> !(Leaked(s) <= Leaked(OutsideNext(s, c)))
  {
    if c.SecretEdited? && Reclaims(s, Outside(c)) {
      var k :| k in AsSet(c.carried) * Leaked(s);
      assert k !in Leaked(OutsideNext(s, c));
    }
    if c.KeyGone? {
      assert c.key !in Leaked(OutsideNext(s, c));
    }
  }

  /** A pass in progress works on the principal now stored. */
  predicate CurrentPass(s: State) {
    match s.pc
    case Gated(recorded, _, _, _) => recorded == s.principal
    case Granted(recorded, _, _, _, _) => recorded == s.principal
    case Written(recorded, _) => recorded == s.principal
    case Recording(recorded, _) => recorded == s.principal
    case Dropping(recorded) => recorded == s.principal
    case Dropped(recorded) => recorded == s.principal
    case _ => true
  }

  /** Passes start on current copies, nobody pastes keys into the Secret, and
      nobody deletes a leaked key at the server. */
  predicate CurrentStep(s: State, e: Event) {
    match e
    case Grant(Begin(recorded)) => recorded == s.principal
    case Leave(BeginDrop(recorded)) => recorded == s.principal
    case Outside(SecretEdited(carried)) => carried.None?
    case Outside(KeyGone(k)) => k !in Leaked(s)
    case _ => true
  }

  predicate CurrentRun(s: State, run: seq<Event>)
    requires Legal(s, run)
    decreases |run|
  {
    run == [] || (CurrentStep(s, run[0]) && CurrentRun(Next(s, run[0]), run[1..]))
  }

  lemma CurrentKept(s: State, e: Event)
    requires Inv(s) && CurrentPass(s) && Enabled(s, e) && CurrentStep(s, e)
    ensures CurrentPass(Next(s, e)) && !Reclaims(s, e)
  {
  }

  /** Leaked for good as far as the controller goes: while passes work on current
      copies and nobody pastes keys, a leaked key stays live and out of reach over
      every run, also past the end of the access, unless it is deleted at the
      server. */
  lemma {:induction false} LeakedForGood(s: State, run: seq<Event>)
    requires Inv(s) && CurrentPass(s) && Legal(s, run) && CurrentRun(s, run)
    ensures Leaked(s) <= Leaked(Run(s, run))
    decreases |run|
  {
    if run != [] {
      CurrentKept(s, run[0]);
      ReclaimsExactly(s, run[0]);
      LeakExactly(s, run[0]);
      LeakedForGood(Next(s, run[0]), run[1..]);
    }
  }

  /** The leak no call reports: from any settled state, losing the Secret and
      then running one pass on a copy that predates the current principal, with
      every call succeeding, leaves the current key live and held by nothing. */
  lemma StaleCopyLeaks(s: State, stale: Principal) returns (run: seq<Event>)
    requires Inv(s) && s.pc.Idle? && !s.dropSeen && !s.released && s.sa.Some?
    requires s.principal.KeyPrincipal? && MintedLive(s, s.principal.key) && s.secret == Owned(Some(s.principal.key))
    requires stale in s.past && stale.KeyPrincipal? && stale != s.principal
    ensures Legal(s, run) && s.principal.key in Leaked(Run(s, run))
    ensures run ==
      [Outside(SecretDeleted), Grant(Begin(stale)), Grant(Mint({})), Store(WriteOk), Settle(ReplaceOk), Settle(RecordOk)]
  {
    assert stale.key.id < s.nextId && s.principal.key.id < s.nextId;
    hide Inv, SettleEnabled, SettleNext, StoreNext, StoreEnabled;
    RunExtended(s, [], Outside(SecretDeleted));
    run := [Outside(SecretDeleted)];
    RunExtended(s, run, Grant(Begin(stale)));
    run := run + [Grant(Begin(stale))];
    RunExtended(s, run, Grant(Mint({})));
    run := run + [Grant(Mint({}))];
    StaleMintLeaks(Run(s, run), s.principal.key);
    RunExtended(s, run, Store(WriteOk));
    run := run + [Store(WriteOk)];
    RunExtended(s, run, Settle(ReplaceOk));
    run := run + [Settle(ReplaceOk)];
    RunExtended(s, run, Settle(RecordOk));
    run := run + [Settle(RecordOk)];
  }

  /** The end of that run, from the minted key on. */
  lemma StaleMintLeaks(s: State, recorded: Key)
    requires s.pc.Granted? && s.pc.rev == s.secretRev && !s.released
    requires s.pc.recorded.KeyPrincipal? && s.pc.result.KeyPrincipal? && recorded !in {s.pc.recorded.key, s.pc.result.key}
    requires s.pc.recorded != s.pc.result && MintedLive(s, recorded)
    ensures Enabled(s, Store(WriteOk))
    ensures var w := Next(s, Store(WriteOk)); Enabled(w, Settle(ReplaceOk)) && Enabled(Next(w, Settle(ReplaceOk)), Settle(RecordOk))
    ensures recorded in Leaked(Next(Next(Next(s, Store(WriteOk)), Settle(ReplaceOk)), Settle(RecordOk)))
  {
  }

  // ---- The Secret never carries a key the controller revoked ----

  /** No user pastes key material into the Secret. */
  predicate Untampered(run: seq<Event>) {
    forall e <- run :: e.Outside? && e.change.SecretEdited? ==> e.change.carried.None?
  }

  predicate Spared(revoked: set<Key>, k: Option<Key>) {
    k.Some? ==> k.value !in revoked
  }

  predicate Own(minted: set<Key>, k: Option<Key>) {
    k.Some? ==> k.value in minted
  }

  /** Only the pass puts keys in the Secret, so it knows what the Secret can carry. */
  ghost predicate PassOwnsSecret(s: State) {
    && (s.pc.Gated? || s.pc.Granted? || s.pc.Unwritten? || s.pc.Written? || s.pc.Recording? ==> !s.dropSeen)
    && (!s.dropSeen ==> Spared(s.revoked, Carries(s.secret)))
    && ((s.pc.Gated? || s.pc.Granted?) ==>
        Spared(s.revoked, Carries(s.pc.seen)) && Carries(s.secret) in {None, Carries(s.pc.seen)})
    && (s.pc.Granted? ==> Spared(s.revoked, KeyOf(s.pc.result)))
    && (s.pc.Granted? && s.pc.minted ==> KeyOf(s.pc.result) != Carries(s.pc.seen))
    && (s.pc.Unwritten? ==> Carries(s.secret) != Some(s.pc.key))
    && (s.pc.Written? ==> Carries(s.secret) in {None, KeyOf(s.pc.result)})
  }

  /** Everything the controller can come to revoke was minted for this access. */
  ghost predicate OnlyOwnKeys(s: State) {
    && s.revoked <= s.minted
    && (forall p <- s.past :: Own(s.minted, KeyOf(p)))
    && Own(s.minted, Carries(s.secret))
    && Own(s.minted, Carries(SnapshotOf(s.pc)))
    && Own(s.minted, InFlight(s.pc))
    && (s.pc.Dropping? || s.pc.Dropped? ==> s.pc.recorded in s.past)
    && (s.pc.Gated? || s.pc.Granted? || s.pc.Written? || s.pc.Recording? ==> s.pc.recorded in s.past)
  }

  ghost predicate Clean(s: State) {
    Inv(s) && PassOwnsSecret(s) && OnlyOwnKeys(s)
  }

  lemma GrantClean(s: State, c: GrantCall)
    requires Clean(s) && GrantEnabled(s, c)
    ensures PassOwnsSecret(GrantNext(s, c)) && OnlyOwnKeys(GrantNext(s, c))
  {
  }

  lemma StoreClean(s: State, c: StoreCall)
    requires Clean(s) && StoreEnabled(s, c)
    ensures PassOwnsSecret(StoreNext(s, c)) && OnlyOwnKeys(StoreNext(s, c))
  {
  }

  lemma SettleClean(s: State, c: SettleCall)
    requires Clean(s) && SettleEnabled(s, c)
    ensures PassOwnsSecret(SettleNext(s, c)) && OnlyOwnKeys(SettleNext(s, c))
  {
  }

  lemma LeaveClean(s: State, c: LeaveCall)
    requires Clean(s) && LeaveEnabled(s, c)
    ensures PassOwnsSecret(LeaveNext(s, c)) && OnlyOwnKeys(LeaveNext(s, c))
  {
  }

  lemma OutsideClean(s: State, c: OutsideChange)
    requires Clean(s) && OutsideEnabled(s, c)
    requires c.SecretEdited? ==> c.carried.None?
    ensures PassOwnsSecret(OutsideNext(s, c)) && OnlyOwnKeys(OutsideNext(s, c))
  {
  }

  lemma NextClean(s: State, e: Event)
    requires Clean(s) && Enabled(s, e) && Untampered([e])
    ensures Clean(Next(s, e))
  {
    LeakExactly(s, e);
    match e
    case Grant(c) => GrantClean(s, c);
    case Store(c) => StoreClean(s, c);
    case Settle(c) => SettleClean(s, c);
    case Leave(c) => LeaveClean(s, c);
    case Outside(c) => assert e in [e]; OutsideClean(s, c);
  }

  lemma {:induction false} UntamperedRun(s: State, run: seq<Event>)
    requires Clean(s) && Legal(s, run) && Untampered(run)
    ensures Clean(Run(s, run))
    decreases |run|
  {
    if run != [] {
      NextClean(s, run[0]);
      UntamperedRun(Next(s, run[0]), run[1..]);
    }
  }

  /** Until a pass starts tearing the access down, its Secret never carries a
      key the controller has revoked, whatever keys.list returned along the
      way; and the controller revokes no key but those minted for the access. */
  lemma SecretNeverRevoked(s: State, run: seq<Event>)
    requires Init(s) && Legal(s, run) && Untampered(run)
    ensures
      var t := Run(s, run);
      (!t.dropSeen && Carries(t.secret).Some? ==> Carries(t.secret).value !in t.revoked) && t.revoked <= t.minted
  {
    UntamperedRun(s, run);
  }

  // ---- Secrets of others ----

  /** A pass past the gate has read a Secret that is absent or the access's own, and
      knows the version it may replace. */
  ghost predicate Gate(s: State) {
    s.pc.Gated? || s.pc.Granted? ==>
      !s.pc.seen.Foreign? && s.pc.rev <= s.secretRev && (s.pc.rev == s.secretRev ==> s.secret == s.pc.seen)
  }

  lemma GateKept(s: State, e: Event)
    requires Gate(s) && Enabled(s, e)
    ensures Gate(Next(s, e))
    ensures s.secret.Foreign? && e != Outside(SecretDeleted) ==> Next(s, e).secret.Foreign?
  {
  }

  /** From a state between passes: a Secret that is not the access's own is neither
      overwritten nor deleted by any run; only users take it away. */
  lemma {:induction false} ForeignSecretKept(s: State, run: seq<Event>)
    requires Gate(s) && Legal(s, run)
    ensures Gate(Run(s, run))
    ensures s.secret.Foreign? && Outside(SecretDeleted) !in run ==> Run(s, run).secret.Foreign?
    decreases |run|
  {
    if run != [] {
      GateKept(s, run[0]);
      ForeignSecretKept(Next(s, run[0]), run[1..]);
    }
  }

  // ---- How many keys are minted ----

  function Mints(run: seq<Event>): nat {
    if run == [] then 0
    else (if run[0].Grant? && (run[0].grant.Mint? || run[0].grant.MintUndecodable?) then 1 else 0) + Mints(run[1..])
  }

  /** What gives the next pass a reason to mint: a lost or edited Secret, an
      expiry, or a minted key that did not reach the Secret. */
  predicate Costs(s: State, e: Event)
    requires Enabled(s, e)
  {
    match e
    case Outside(c) => c.SecretDeleted? || c.SecretEdited? || c.SecretTaken? || c.Expire?
    case Grant(MintUndecodable(_)) => true
    case Store(WriteFails) => s.pc.minted
    case Leave(Crash) => s.pc.Granted? && s.pc.minted
    case _ => false
  }

  function Cost(s: State, run: seq<Event>): nat
    requires Legal(s, run)
    decreases |run|
  {
    if run == [] then 0
    else (if Costs(s, run[0]) then 1 else 0) + Cost(Next(s, run[0]), run[1..])
  }

  predicate Usable(s: State, k: Option<Key>) {
    s.sa.Some? && k.Some? && k.value.account == s.sa.value && k.value !in s.expired
  }

  /** 1 while a pass may still mint without a new reason to. */
  function Due(s: State): nat {
    if s.sa.None? || s.dropSeen then 0
    else if s.pc.Granted? && s.pc.minted then (if Usable(s, KeyOf(s.pc.result)) then 0 else 1)
    else if s.pc.Gated? && !Usable(s, Carries(s.pc.seen)) then 1
    else if Usable(s, Carries(s.secret)) then 0 else 1
  }

  ghost predicate MintInv(s: State) {
    && (s.pc.Gated? ==> s.pc.sa == s.sa)
    && (s.pc.Gated? || s.pc.Granted? || s.pc.Unwritten? || s.pc.Written? || s.pc.Recording? ==> !s.dropSeen)
    && (s.pc.Gated? || s.pc.Granted? ==>
        s.pc.rev <= s.secretRev && (s.pc.rev == s.secretRev ==> s.secret == s.pc.seen))
    && (s.pc.Granted? && s.sa.Some? ==> s.pc.result.KeyPrincipal?)
    && (s.pc.Granted? && s.pc.minted ==> KeyOf(s.pc.result) != Carries(s.pc.seen))
    && (s.pc.Granted? && !s.pc.minted && s.sa.Some? ==> KeyOf(s.pc.result) == Carries(s.pc.seen))
  }

  /** One step mints or comes due only against a reason. */
  ghost predicate Paid(s: State, e: Event)
    requires Enabled(s, e)
  {
    MintInv(Next(s, e)) && Mints([e]) + Due(Next(s, e)) <= Due(s) + (if Costs(s, e) then 1 else 0)
  }

  lemma GrantPaid(s: State, c: GrantCall)
    requires Inv(s) && MintInv(s) && GrantEnabled(s, c)
    ensures Paid(s, Grant(c))
  {
  }

  lemma StorePaid(s: State, c: StoreCall)
    requires Inv(s) && MintInv(s) && StoreEnabled(s, c)
    ensures Paid(s, Store(c))
  {
  }

  lemma SettlePaid(s: State, c: SettleCall)
    requires Inv(s) && MintInv(s) && SettleEnabled(s, c)
    ensures Paid(s, Settle(c))
  {
  }

  lemma LeavePaid(s: State, c: LeaveCall)
    requires Inv(s) && MintInv(s) && LeaveEnabled(s, c)
    ensures Paid(s, Leave(c))
  {
  }

  lemma OutsidePaid(s: State, c: OutsideChange)
    requires Inv(s) && MintInv(s) && OutsideEnabled(s, c)
    requires !c.AccountChanged?
    ensures Paid(s, Outside(c))
  {
  }

  lemma StepPaid(s: State, e: Event)
    requires Inv(s) && MintInv(s) && Enabled(s, e)
    requires !(e.Outside? && e.change.AccountChanged?)
    ensures Paid(s, e)
  {
    match e
    case Grant(c) => GrantPaid(s, c);
    case Store(c) => StorePaid(s, c);
    case Settle(c) => SettlePaid(s, c);
    case Leave(c) => LeavePaid(s, c);
    case Outside(c) => OutsidePaid(s, c);
  }

  /** Over any run with the service account parameter left alone, keys are
      minted only against a reason: from a state whose Secret carries a usable
      key, no reason means no mint. */
  lemma {:induction false} MintsBounded(s: State, run: seq<Event>)
    requires Inv(s) && MintInv(s) && Legal(s, run)
    requires forall e <- run :: !(e.Outside? && e.change.AccountChanged?)
    ensures Mints(run) + Due(Run(s, run)) <= Due(s) + Cost(s, run)
    decreases |run|
  {
    if run != [] {
      StepPaid(s, run[0]);
      LeakExactly(s, run[0]);
      assert [run[0]][1..] == [];
      MintsBounded(Next(s, run[0]), run[1..]);
    }
  }

  /** From the start: at most one key more than there were reasons. */
  lemma MintsBoundedFromStart(s: State, run: seq<Event>)
    requires Init(s) && Legal(s, run)
    requires forall e <- run :: !(e.Outside? && e.change.AccountChanged?)
    ensures Mints(run) <= 1 + Cost(s, run)
  {
    MintsBounded(s, run);
  }

  // ---- A key deleted at the server ----

  /** A settled access whose key is deleted at the server settles on the dead key:
      with every call succeeding the next pass reuses it and finds nothing to
      write, revoke or record. */
  lemma SettlesOnDeadKey(s: State) returns (run: seq<Event>)
    requires Inv(s) && s.pc.Idle? && !s.dropSeen && !s.released && Usable(s, Carries(s.secret))
    requires s.principal == KeyPrincipal(Carries(s.secret).value) && s.principal.key in s.live
    ensures Legal(s, run)
    ensures Run(s, run) == s.(live := s.live - {s.principal.key}, gone := s.gone + {s.principal.key})
    ensures run == [
      Outside(KeyGone(s.principal.key)), Grant(Begin(s.principal)), Grant(Reuse({})), Store(WriteSkipped),
      Settle(NothingToReplace), Settle(RecordOk)]
  {
    var gone := s.(live := s.live - {s.principal.key}, gone := s.gone + {s.principal.key});
    run := [Outside(KeyGone(s.principal.key))];
    RunExtended(s, [], Outside(KeyGone(s.principal.key)));
    RunExtended(s, run, Grant(Begin(s.principal)));
    run := run + [Grant(Begin(s.principal))];
    assert Run(s, run) == gone.(pc := Gated(s.principal, s.secret, s.secretRev, s.sa));
    RunExtended(s, run, Grant(Reuse({})));
    run := run + [Grant(Reuse({}))];
    RunExtended(s, run, Store(WriteSkipped));
    run := run + [Store(WriteSkipped)];
    RunExtended(s, run, Settle(NothingToReplace));
    run := run + [Settle(NothingToReplace)];
    RunExtended(s, run, Settle(RecordOk));
    run := run + [Settle(RecordOk)];
  }

  /** And no run ever replaces it: keys deleted at the server, however many, are
      no reason to mint, until the Secret is lost or edited or the key expires. */
  lemma GoneKeyNotReplaced(s: State, run: seq<Event>)
    requires Inv(s) && MintInv(s) && s.pc.Idle? && Usable(s, Carries(s.secret)) && Legal(s, run)
    requires forall e <- run :: !(e.Outside? && e.change.AccountChanged?)
    requires Cost(s, run) == 0
    ensures Mints(run) == 0
  {
    MintsBounded(s, run);
  }
}
