/** The BucketyAccess reconciler's pass, call by call in its order, as a run of
    the credential machine.  Every outcome of a call is an argument. */
module AccessReconciler {
  import opened CredentialLifecycle
  import opened Wrappers

  datatype BucketyRead = BucketyFound | BucketyNotFound | BucketyError

  /** What each call of one pass answers. */
  datatype Calls = Calls(
    recorded: Principal,          // status.principal of the copy read, possibly stale
    terminating: bool,            // deletionTimestamp of the copy read
    finalizer: bool,              // the copy carries the finalizer
    buckety: BucketyRead,
    backendKnown: bool,
    ready: bool,                  // Buckety Ready, name stamped, parameters valid and resolved
    secretRead: bool,             // the live read of the Secret answers
    deferred: bool,               // first pass after a start, settled
    grantOk: bool,                // every call of GrantAccess before and including keys.create succeeds
    decodeOk: bool,               // the created key's material decodes
    listing: set<Key>,            // what keys.list returns
    rewrite: bool,                // labels or data other than the key differ from the Secret
    writeOk: bool,
    revokeOk: bool,               // RevokeAccess returns nil
    updateOk: bool)               // the final status patch or finalizer update lands

  datatype Verdict =
    | FinalizerAdded | Waiting | SecretConflict | Deferred | Failed | Settled | Blocked | Released | NothingToDo

  /** A step a pass takes itself, on the copy whose principal is `recorded`. */
  predicate OwnStep(e: Event, recorded: Principal) {
    match e
    case Outside(_) => false
    case Grant(Begin(r)) => r == recorded
    case Leave(BeginDrop(r)) => r == recorded
    case _ => true
  }

  predicate Begins(e: Event) {
    (e.Grant? && e.grant.Begin?) || (e.Leave? && e.leave.BeginDrop?)
  }

  /** A pass begins once. */
  predicate OwnSteps(run: seq<Event>, recorded: Principal) {
    && (forall i | 0 <= i < |run| :: OwnStep(run[i], recorded))
    && (forall i | 0 < i < |run| :: !Begins(run[i]))
  }

  lemma {:induction false} NoBeginCurrent(s: State, run: seq<Event>)
    requires Legal(s, run) && forall i | 0 <= i < |run| :: !run[i].Outside? && !Begins(run[i])
    ensures CurrentRun(s, run)
    decreases |run|
  {
    if run != [] {
      NoBeginCurrent(Next(s, run[0]), run[1..]);
    }
  }

  /** A pass on a current copy is a run of current steps. */
  lemma OwnStepsCurrent(s: State, run: seq<Event>)
    requires Legal(s, run) && OwnSteps(run, s.principal)
    ensures CurrentRun(s, run)
  {
    if run != [] {
      assert forall i | 0 <= i < |run[1..]| :: run[1..][i] == run[i + 1];
      NoBeginCurrent(Next(s, run[0]), run[1..]);
    }
  }

  lemma {:induction false} OwnStepsKeepGone(s: State, run: seq<Event>)
    requires Legal(s, run) && forall i | 0 <= i < |run| :: !run[i].Outside?
    ensures Run(s, run).gone == s.gone
    decreases |run|
  {
    if run != [] {
      OwnStepsKeepGone(Next(s, run[0]), run[1..]);
    }
  }

  lemma OwnStepsUntampered(run: seq<Event>, recorded: Principal)
    requires OwnSteps(run, recorded)
    ensures Untampered(run)
  {
    forall e | e in run ensures !e.Outside? {
      var i :| 0 <= i < |run| && run[i] == e;
    }
  }

  /** The key a settled pass overwrites and nobody recorded: the Secret's alone,
      and not reused. */
  function Overwritten(s: State, listing: set<Key>): set<Key> {
    if SecretHoldsAlone(s) && !Reuses(s, s.secret, s.sa, listing) then AsSet(Carries(s.secret)) else {}
  }

  /** What is live after a settled pass, from what was: the new principal's key
      added, the replaced one's taken away. */
  lemma SettledLeaks(s: State, t: State, listing: set<Key>)
    requires Inv(s) && s.pc.Idle? && !s.released && t.pc.Idle? && !t.released
    requires t.secret == Owned(KeyOf(t.principal))
    requires if Reuses(s, s.secret, s.sa, listing) then KeyOf(t.principal) == Carries(s.secret) && t.minted == s.minted
             else t.minted == s.minted + AsSet(KeyOf(t.principal)) && AsSet(KeyOf(t.principal)) !! s.minted
    requires t.live == s.live + (t.minted - s.minted) - (if s.principal != t.principal then AsSet(KeyOf(s.principal)) else {})
    ensures Leaked(t) == Leaked(s) + Overwritten(s, listing)
  {
    forall k ensures k in Leaked(t) <==> k in Leaked(s) + Overwritten(s, listing) {
    }
  }

  /** A pass does nothing when it only adds the finalizer, or has none to remove; when
      the Buckety is not there, not Ready, or its backend unknown; when the Secret
      cannot be read or is not the access's own; or when it is put off after a start. */
  predicate Stopped(calls: Calls, secret: Secret) {
    || !calls.finalizer
    || (!calls.terminating &&
        (!calls.buckety.BucketyFound? || !calls.ready || !calls.backendKnown || !calls.secretRead || secret.Foreign? || calls.deferred))
  }

  /** What a settled pass may leave: the shared principal, or a key of the service
      account that the pass's listing does not show expired. */
  predicate SoundPrincipal(s: State, p: Principal, listing: set<Key>) {
    match p
    case KeyPrincipal(k) => Some(k.account) == s.sa && k !in listing * s.expired
    case _ => p == StaticPrincipal && s.sa.None?
  }

  class Reconciler {
    var state: State

    /** `run` is what the pass has done since `start`: calls of its own only. */
    ghost predicate Did(start: State, run: seq<Event>, recorded: Principal)
      reads this
    {
      Legal(start, run) && state == Run(start, run) && OwnSteps(run, recorded)
    }

    constructor (sa: Option<string>)
      ensures state == EMPTY.(sa := sa)
    {
      state := EMPTY.(sa := sa);
    }

    /** One call of the pass; `run` is what it has done since `start`. */
    method Do(e: Event, ghost start: State, ghost run: seq<Event>, ghost recorded: Principal) returns (ghost longer: seq<Event>)
      requires Enabled(state, e) && OwnStep(e, recorded) && (Begins(e) ==> run == []) && Did(start, run, recorded)
      modifies this
      ensures state == Next(old(state), e)
      ensures longer == run + [e] && Did(start, longer, recorded)
    {
      RunExtended(start, run, e);
      state := Next(state, e);
      longer := run + [e];
    }

    method DoGrant(c: GrantCall, ghost start: State, ghost run: seq<Event>, ghost recorded: Principal) returns (ghost longer: seq<Event>)
      requires GrantEnabled(state, c) && (c.Begin? ==> c.recorded == recorded && run == []) && Inv(state) && Did(start, run, recorded)
      modifies this
      ensures state == GrantNext(old(state), c) && Inv(state) && Did(start, longer, recorded)
    {
      GrantInv(state, c);
      longer := Do(Grant(c), start, run, recorded);
    }

    method DoStore(c: StoreCall, ghost start: State, ghost run: seq<Event>, ghost recorded: Principal) returns (ghost longer: seq<Event>)
      requires StoreEnabled(state, c) && Inv(state) && Did(start, run, recorded)
      modifies this
      ensures state == StoreNext(old(state), c) && Inv(state) && Did(start, longer, recorded)
    {
      StoreAccounted(state, c);
      longer := Do(Store(c), start, run, recorded);
    }

    method DoSettle(c: SettleCall, ghost start: State, ghost run: seq<Event>, ghost recorded: Principal) returns (ghost longer: seq<Event>)
      requires SettleEnabled(state, c) && Inv(state) && Did(start, run, recorded)
      modifies this
      ensures state == SettleNext(old(state), c) && Inv(state) && Did(start, longer, recorded)
    {
      SettleInv(state, c);
      longer := Do(Settle(c), start, run, recorded);
    }

    method DoLeave(c: LeaveCall, ghost start: State, ghost run: seq<Event>, ghost recorded: Principal) returns (ghost longer: seq<Event>)
      requires LeaveEnabled(state, c) && (c.BeginDrop? ==> c.recorded == recorded && run == []) && Did(start, run, recorded)
      modifies this
      ensures state == LeaveNext(old(state), c) && Did(start, longer, recorded)
    {
      longer := Do(Leave(c), start, run, recorded);
    }

    /** The deletion path, after BeginDrop. */
    method Drop(calls: Calls, ghost start: State, ghost run: seq<Event>) returns (verdict: Verdict, ghost longer: seq<Event>)
      requires state.pc == Dropping(calls.recorded) && Inv(state)
      requires Did(start, run, calls.recorded)
      modifies this
      ensures Did(start, longer, calls.recorded)
      ensures state.pc.Idle? && verdict in {Failed, Blocked, Released}
      ensures state.released <==> verdict == Released
      // released exactly when the finalizer update lands on a current copy after the
      // Buckety was read, and what there was to revoke was revoked
      ensures verdict == Released <==>
        && calls.updateOk && calls.recorded == old(state).principal && !calls.buckety.BucketyError?
        && (calls.buckety.BucketyFound? ==> if calls.backendKnown then calls.revokeOk else !calls.recorded.KeyPrincipal?)
      ensures verdict == Released ==>
        state.live == if calls.buckety.BucketyFound? then old(state).live - AsSet(KeyOf(old(state).principal)) else old(state).live
      ensures verdict != Released ==> state.secret == old(state).secret
      ensures state.minted == old(state).minted && state.principal == old(state).principal
    {
      longer := run;
      match calls.buckety {
        case BucketyError =>
          longer := DoLeave(DropFails, start, longer, calls.recorded);
          return Failed, longer;
        case BucketyFound =>
          if !calls.backendKnown && calls.recorded.KeyPrincipal? {
            longer := DoLeave(DropFails, start, longer, calls.recorded);
            return Blocked, longer;
          }
          if calls.backendKnown {
            if !calls.revokeOk {
              longer := DoLeave(DropFails, start, longer, calls.recorded);
              return Failed, longer;
            }
            longer := DoLeave(DropOk, start, longer, calls.recorded);
          } else {
            longer := DoLeave(DropSkipped, start, longer, calls.recorded);
          }
        case BucketyNotFound =>
          longer := DoLeave(DropOrphaned, start, longer, calls.recorded);
      }
      if !calls.updateOk || calls.recorded != state.principal {
        longer := DoLeave(ReleaseFails, start, longer, calls.recorded);
        return Failed, longer;
      }
      longer := DoLeave(ReleaseOk, start, longer, calls.recorded);
      verdict := Released;
    }

    /** GrantAccess: reuse the Secret's key unless the listing shows it expired, else mint. */
    method GrantAccess(calls: Calls, ghost start: State, ghost run: seq<Event>) returns (ok: bool, ghost longer: seq<Event>)
      requires state.pc.Gated? && Inv(state) && Did(start, run, calls.recorded)
      modifies this
      ensures Did(start, longer, calls.recorded) && Inv(state)
      ensures state.secret == old(state).secret && state.secretRev == old(state).secretRev
      ensures state.principal == old(state).principal && state.sa == old(state).sa && state.released == old(state).released
      ensures state.revoked == old(state).revoked && state.dropSeen == old(state).dropSeen
      ensures ok ==>
        state.pc.Granted? && state.pc.recorded == old(state).pc.recorded && state.pc.seen == old(state).pc.seen &&
        state.pc.rev == old(state).pc.rev
      ensures !ok ==> state.pc.Idle?
      // the Secret's key, if it is of this service account and not both listed and
      // expired, is returned as it is
      ensures
        match old(state).pc.seen
        case Owned(Some(k)) =>
          Some(k.account) == old(state).pc.sa && !(k in calls.listing && k in old(state).expired) ==>
            && state.minted == old(state).minted && state.live == old(state).live
            && (ok <==> calls.grantOk) && (ok ==> state.pc.result == KeyPrincipal(k) && !state.pc.minted)
        case _ => true
      // no key is returned that the listing shows expired, or that is of another account
      ensures ok && state.pc.result.KeyPrincipal? ==>
        state.pc.result.key !in calls.listing * old(state).expired && Some(state.pc.result.key.account) == old(state).pc.sa
      ensures old(state).pc.sa.None? ==>
        state.minted == old(state).minted && state.live == old(state).live &&
        (ok ==> state.pc.result == StaticPrincipal && !state.pc.minted)
      // otherwise a fresh one is minted, or it is lost in decoding
      ensures
        old(state).pc.sa.Some? &&
        (match old(state).pc.seen
         case Owned(Some(k)) => Some(k.account) != old(state).pc.sa || (k in calls.listing && k in old(state).expired)
         case _ => true) ==>
        var newKey := Key(old(state).pc.sa.value, old(state).nextId);
        if calls.grantOk then
          state.minted == old(state).minted + {newKey} && state.live == old(state).live + {newKey} &&
          (ok <==> calls.decodeOk) && (ok ==> state.pc.result == KeyPrincipal(newKey) && state.pc.minted)
        else
          !ok && state.minted == old(state).minted && state.live == old(state).live
    {
      longer := run;
      if !calls.grantOk {
        longer := DoGrant(GrantFails, start, longer, calls.recorded);
        return false, longer;
      }
      if state.pc.sa.None? {
        longer := DoGrant(GrantStatic, start, longer, calls.recorded);
      } else if Reuses(state, state.pc.seen, state.pc.sa, calls.listing) {
        longer := DoGrant(Reuse(calls.listing), start, longer, calls.recorded);
      } else if calls.decodeOk {
        longer := DoGrant(Mint(calls.listing), start, longer, calls.recorded);
      } else {
        longer := DoGrant(MintUndecodable(calls.listing), start, longer, calls.recorded);
        return false, longer;
      }
      ok := true;
    }

    /** writeSecret; when the write fails, a key minted in this pass is revoked best effort. */
    method WriteSecret(calls: Calls, ghost start: State, ghost run: seq<Event>) returns (ok: bool, ghost longer: seq<Event>)
      requires state.pc.Granted? && state.pc.rev == state.secretRev && state.pc.seen == state.secret
      requires Inv(state) && Did(start, run, calls.recorded)
      modifies this
      ensures Did(start, longer, calls.recorded) && Inv(state)
      ensures state.minted == old(state).minted && state.principal == old(state).principal
      ensures state.released == old(state).released && state.dropSeen == old(state).dropSeen
      ensures ok ==>
        state.pc == Written(old(state).pc.recorded, old(state).pc.result) &&
        state.secret == Owned(KeyOf(old(state).pc.result)) && state.live == old(state).live
      ensures !ok ==>
        state.pc.Idle? && state.secret == old(state).secret && state.secretRev == old(state).secretRev &&
        state.live == if old(state).pc.minted && calls.revokeOk then old(state).live - AsSet(KeyOf(old(state).pc.result)) else old(state).live
    {
      longer := run;
      if !calls.rewrite && state.pc.seen == Owned(KeyOf(state.pc.result)) {
        longer := DoStore(WriteSkipped, start, longer, calls.recorded);
        return true, longer;
      }
      if calls.writeOk {
        longer := DoStore(WriteOk, start, longer, calls.recorded);
        return true, longer;
      }
      longer := DoStore(WriteFails, start, longer, calls.recorded);
      if state.pc.Unwritten? {
        var cleanup := if calls.revokeOk then CleanupOk else CleanupFails;
        longer := DoStore(cleanup, start, longer, calls.recorded);
      }
      ok := false;
    }

    /** Revoke the principal this pass replaces, if it does. */
    method RevokePredecessor(calls: Calls, ghost start: State, ghost run: seq<Event>) returns (ok: bool, ghost longer: seq<Event>)
      requires state.pc.Written? && Inv(state) && Did(start, run, calls.recorded)
      modifies this
      ensures Did(start, longer, calls.recorded) && Inv(state)
      ensures ok <==> (old(state.pc.recorded !in {NoPrincipal, state.pc.result}) ==> calls.revokeOk)
      ensures state.pc == if ok then Recording(old(state).pc.recorded, old(state).pc.result) else Idle
      ensures
        state.live ==
        if old(state.pc.recorded !in {NoPrincipal, state.pc.result}) && calls.revokeOk then old(state).live - AsSet(KeyOf(old(state).pc.recorded)) else old(state).live
      ensures state.secret == old(state).secret && state.minted == old(state).minted && state.released == old(state).released
      ensures state.principal == old(state).principal && state.dropSeen == old(state).dropSeen
    {
      if !Replaces(state.pc) {
        longer := DoSettle(NothingToReplace, start, run, calls.recorded);
        return true, longer;
      }
      longer := DoSettle(if calls.revokeOk then ReplaceOk else ReplaceFails, start, run, calls.recorded);
      ok := calls.revokeOk;
    }

    /** Revoke the replaced principal, then record the new one. */
    method SettlePrincipal(calls: Calls, ghost start: State, ghost run: seq<Event>) returns (ok: bool, ghost longer: seq<Event>)
      requires state.pc.Written? && Inv(state) && Did(start, run, calls.recorded)
      modifies this
      ensures Did(start, longer, calls.recorded) && Inv(state) && state.pc.Idle?
      ensures state.secret == old(state).secret && state.minted == old(state).minted && state.released == old(state).released
      ensures
        state.live ==
        if old(state.pc.recorded !in {NoPrincipal, state.pc.result}) && calls.revokeOk then old(state).live - AsSet(KeyOf(old(state).pc.recorded)) else old(state).live
      ensures state.dropSeen == old(state).dropSeen
      ensures ok <==> calls.updateOk && (old(state.pc.recorded !in {NoPrincipal, state.pc.result}) ==> calls.revokeOk)
      ensures
        state.principal ==
        if ok && old(state).pc.recorded != old(state).pc.result then old(state).pc.result else old(state).principal
    {
      ok, longer := RevokePredecessor(calls, start, run);
      if ok {
        longer := DoSettle(if calls.updateOk then RecordOk else RecordFails, start, longer, calls.recorded);
        ok := calls.updateOk;
      }
    }

    /** The pass past its gates: grant, write, revoke the predecessor, record. */
    method Provide(calls: Calls, ghost start: State) returns (settled: bool, ghost run: seq<Event>)
      requires GrantEnabled(state, Begin(calls.recorded)) && Inv(state) && start == state
      modifies this
      ensures Did(start, run, calls.recorded) && Inv(state) && state.pc.Idle? && !state.released
      ensures !state.dropSeen && (!settled ==> state.principal == start.principal)
      ensures settled && calls.recorded == start.principal ==>
        state.secret == Owned(KeyOf(state.principal)) && SoundPrincipal(start, state.principal, calls.listing) &&
        Leaked(state) == Leaked(start) + Overwritten(start, calls.listing) &&
        (if Reuses(start, start.secret, start.sa, calls.listing) then KeyOf(state.principal) == Carries(start.secret)
         else AsSet(KeyOf(state.principal)) <= state.live)
      ensures Reuses(start, start.secret, start.sa, calls.listing) ==> state.minted == start.minted
    {
      hide PassShape, Leaked, Overwritten;
      run := [];
      run := DoGrant(Begin(calls.recorded), start, run, calls.recorded);
      settled, run := GrantAccess(calls, start, run);
      if settled {
        settled, run := WriteSecret(calls, start, run);
        if settled {
          settled, run := SettlePrincipal(calls, start, run);
          if settled && calls.recorded == start.principal {
            SettledLeaks(start, state, calls.listing);
          }
        }
      }
    }

    /** One whole pass.  It is a run of the machine made of the pass's own steps,
        so everything proved of untampered runs holds of it; beyond that:
        - a settled pass on a current copy leaves exactly one live key that was not
          leaked before and is not the unrecorded one it overwrote: that of the
          principal, which Secret and status both hold; and none when that key was
          deleted at the server before, which happens only to a reused one;
        - in particular the retry of a pass whose status patch failed revokes the
          predecessor, records the key the Secret carries, and leaks nothing;
        - releasing a settled access whose Buckety is there leaks nothing;
        - a pass whose Secret carries a key not shown expired mints nothing. */
    method Reconcile(calls: Calls) returns (verdict: Verdict, ghost run: seq<Event>)
      requires Inv(state) && state.pc.Idle? && !state.released
      requires calls.recorded in state.past
      requires calls.terminating ==> state.deleting
      requires state.dropSeen ==> calls.terminating
      modifies this
      ensures Did(old(state), run, calls.recorded) && Inv(state) && state.pc.Idle?
      ensures verdict !in {Settled, Released} ==> state.principal == old(state).principal && !state.released
      // what stops a pass at its gates, before any credential is minted or revoked
      ensures
        (!calls.finalizer ||
         (!calls.terminating &&
          (!calls.buckety.BucketyFound? || !calls.ready || !calls.backendKnown || !calls.secretRead ||
           old(state).secret.Foreign? || calls.deferred))) ==> state == old(state)
      ensures
        (&& !calls.terminating && calls.finalizer && calls.buckety.BucketyFound? && calls.ready && calls.backendKnown
         && calls.secretRead && !old(state).secret.Foreign? && !calls.deferred) ==> verdict in {Settled, Failed}
      ensures calls.terminating && calls.finalizer ==> verdict in {Released, Failed, Blocked}
      ensures
        verdict == Settled && calls.recorded == old(state).principal ==>
          && state.secret == Owned(KeyOf(state.principal))
          && (if old(state).sa.None? then state.principal == StaticPrincipal
              else state.principal.KeyPrincipal? && state.principal.key.account == old(state).sa.value)
          // never a key that the pass's own listing shows expired
          && AsSet(KeyOf(state.principal)) !! calls.listing * old(state).expired
      ensures
        verdict == Settled && calls.recorded == old(state).principal ==>
          && Leaked(state) == Leaked(old(state)) + Overwritten(old(state), calls.listing)
          && (old(Reuses(state, state.secret, state.sa, calls.listing)) ==> KeyOf(state.principal) == old(Carries(state.secret)))
      ensures Untampered(run) && (calls.recorded == old(state).principal ==> CurrentRun(old(state), run))
      ensures old(Clean(state)) ==> Clean(state)
      ensures
        verdict == Settled && calls.recorded == old(state).principal && old(Clean(state)) ==>
          (state.minted * state.live) - Leaked(old(state)) - Overwritten(old(state), calls.listing) ==
          AsSet(KeyOf(state.principal)) - old(state).gone
      ensures
        verdict == Settled && calls.recorded == old(state).principal &&
        !old(Reuses(state, state.secret, state.sa, calls.listing)) ==>
          AsSet(KeyOf(state.principal)) !! old(state).gone
      ensures
        verdict == Released && calls.buckety.BucketyFound? && old(Carries(state.secret) == KeyOf(state.principal)) ==>
          Leaked(state) == Leaked(old(state))
      ensures old(Reuses(state, state.secret, state.sa, calls.listing)) ==> state.minted == old(state).minted
    {
      verdict, run := Pass(calls);
      OwnStepsUntampered(run, calls.recorded);
      OwnStepsKeepGone(old(state), run);
      if calls.recorded == old(state).principal {
        OwnStepsCurrent(old(state), run);
      }
      if old(Clean(state)) {
        UntamperedRun(old(state), run);
        if verdict == Settled && calls.recorded == old(state).principal && state.principal.KeyPrincipal? {
          assert MintedOrGone(state, state.principal.key);
        }
      }
    }

    /** The pass, branch by branch. */
    method Pass(calls: Calls) returns (verdict: Verdict, ghost run: seq<Event>)
      requires Inv(state) && state.pc.Idle? && !state.released
      requires calls.recorded in state.past
      requires calls.terminating ==> state.deleting
      requires state.dropSeen ==> calls.terminating
      modifies this
      ensures Did(old(state), run, calls.recorded) && Inv(state) && state.pc.Idle?
      ensures verdict !in {Settled, Released} ==> state.principal == old(state).principal && !state.released
      // what stops a pass at its gates, before any credential is minted or revoked
      ensures Stopped(calls, old(state).secret) ==> state == old(state)
      ensures !calls.terminating && !Stopped(calls, old(state).secret) ==> verdict in {Settled, Failed}
      ensures calls.terminating && !Stopped(calls, old(state).secret) ==> verdict in {Released, Failed, Blocked}
      ensures verdict == Settled ==> !calls.terminating && !state.dropSeen
      ensures
        verdict == Settled && calls.recorded == old(state).principal ==>
          && state.secret == Owned(KeyOf(state.principal)) && SoundPrincipal(old(state), state.principal, calls.listing)
          && Leaked(state) == Leaked(old(state)) + Overwritten(old(state), calls.listing)
          && (if old(Reuses(state, state.secret, state.sa, calls.listing)) then KeyOf(state.principal) == old(Carries(state.secret))
              else AsSet(KeyOf(state.principal)) <= state.live)
      ensures
        verdict == Released && calls.buckety.BucketyFound? && old(Carries(state.secret) == KeyOf(state.principal)) ==>
          Leaked(state) == Leaked(old(state))
      ensures old(Reuses(state, state.secret, state.sa, calls.listing)) ==> state.minted == old(state).minted
    {
      run := [];
      if calls.terminating {
        if !calls.finalizer {
          return NothingToDo, run;
        }
        LeaveInv(state, BeginDrop(calls.recorded));
        run := DoLeave(BeginDrop(calls.recorded), old(state), run, calls.recorded);
        verdict, run := Drop(calls, old(state), run);
        RunAccounted(old(state), run);
        return;
      }
      if !calls.finalizer {
        return FinalizerAdded, run;
      }
      if !calls.buckety.BucketyFound? || !calls.ready || !calls.backendKnown {
        return Waiting, run;
      }
      if !calls.secretRead {
        return Failed, run;
      }
      if state.secret.Foreign? {
        return SecretConflict, run;
      }
      if calls.deferred {
        return Deferred, run;
      }
      var settled;
      settled, run := Provide(calls, old(state));
      verdict := if settled then Settled else Failed;
    }
  }
}
