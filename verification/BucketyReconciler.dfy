/** The Buckety reconciler's pass, call by call in its order, as a run of the
    deletion protocol.  Every outcome of a call is an argument. */
module BucketyReconciler {
  import opened DeletionProtocol
  import opened Wrappers

  /** What reconcileImplicitAccess does with the list it reads; the role update
      does not matter here. */
  datatype ImplicitCall = KeepAccesses | CreateAccess(name: string) | ReclaimAccess(name: string) | ImplicitFails

  /** What each call of one pass answers. */
  datatype Calls = Calls(
    resolved: Option<string>,          // the resolved and valid resource name
    inspection: Option<Inspection>,    // InspectBuckety, None on error
    ensured: bool,                     // parameters valid, EnsureBuckety succeeds
    implicit: ImplicitCall,            // reconcileImplicitAccess, once ensured
    patched: bool,                     // the status patch at the end lands
    listOk: bool,                      // the live list of accesses answers
    first: string,                     // the first implicit access it lists, if any
    deleteOk: bool,                    // DeleteBuckety returns nil
    writeOk: bool)                     // stamping update, finalizer update

  datatype Verdict =
    | FinalizerAdded | Paused | Refused | Failed | Settled | NotEnsured | Unpatched
    | BlockedByAccesses | RevokingAccesses | DeletionBlocked | Unfinished | Released

  /** The steps a pass takes itself. */
  predicate OwnSteps(run: seq<Event>) {
    forall i | 0 <= i < |run| :: run[i].OfProvision? || run[i].OfTeardown?
  }

  /** The accesses after reconcileImplicitAccess. */
  function AccessesAfter(s: State, implicit: ImplicitCall): map<string, Access> {
    match implicit
    case CreateAccess(name) => if name in s.accesses then s.accesses else s.accesses[name := Access(true, false, false, NoPrincipal)]
    case ReclaimAccess(name) => Removed(s, name).accesses
    case _ => s.accesses
  }

  lemma AccessesAfterDepends(s: State, t: State, implicit: ImplicitCall)
    requires s.accesses == t.accesses
    ensures AccessesAfter(s, implicit) == AccessesAfter(t, implicit)
  {
  }

  /** None of them is a creation of an access by a user. */
  lemma {:induction false} OwnStepsNoRace(s: State, run: seq<Event>)
    requires Legal(s, run) && OwnSteps(run)
    ensures NoRace(s, run)
    decreases |run|
  {
    if run != [] {
      OwnStepsNoRace(Next(s, run[0]), run[1..]);
    }
  }

  class Reconciler {
    var state: State

    /** `run` is what the pass has done since `start`: calls of its own only. */
    ghost predicate Did(start: State, run: seq<Event>)
      reads this
    {
      Legal(start, run) && state == Run(start, run) && OwnSteps(run)
    }

    constructor (start: State)
      ensures state == start
    {
      state := start;
    }

    /** One call of the pass; `run` is what it has done since `start`. */
    method Do(e: Event, ghost start: State, ghost run: seq<Event>) returns (ghost longer: seq<Event>)
      requires Enabled(state, e) && (e.OfProvision? || e.OfTeardown?) && Did(start, run)
      modifies this
      ensures state == Next(old(state), e)
      ensures longer == run + [e] && Did(start, longer)
    {
      RunExtended(start, run, e);
      state := Next(state, e);
      longer := run + [e];
    }

    method Teardown(t: TeardownStep, ghost start: State, ghost run: seq<Event>) returns (ghost longer: seq<Event>)
      requires TeardownEnabled(state, t) && Did(start, run)
      modifies this
      ensures state == TeardownNext(old(state), t) && Did(start, longer)
    {
      longer := Do(OfTeardown(t), start, run);
    }

    method Provision(b: ProvisionStep, ghost start: State, ghost run: seq<Event>) returns (ghost longer: seq<Event>)
      requires ProvisionEnabled(state, b) && Did(start, run)
      modifies this
      ensures state == ProvisionNext(old(state), b) && Did(start, longer)
    {
      longer := Do(OfProvision(b), start, run);
    }

    /** DeleteBuckety, when the policy and the stamp call for it. */
    method DeleteBackend(copy: Buckety, calls: Calls, ghost start: State, ghost run: seq<Event>)
      returns (verdict: Verdict, ghost longer: seq<Event>)
      requires state.bpc == Cleared(copy) && DeletesBackend(copy) && Did(start, run)
      modifies this
      ensures Did(start, longer)
      ensures verdict == if Unavailable(old(state).driver, copy) then DeletionBlocked else if calls.deleteOk then Released else Unfinished
      ensures verdict == Released ==> state.bpc == Releasing(copy, true) && state.bky == old(state).bky
      ensures verdict != Released ==> state.bpc.BIdle? && (state.bky.Some? ==> !state.bky.value.ready)
      ensures
        state.calls ==
        if Unavailable(old(state).driver, copy) then old(state).calls
        else old(state).calls + {DeleteCall(old(state).driver.value, copy.stamp.value.resource)}
      ensures state.frozen == old(state).frozen && (state.bky.Some? <==> old(state).bky.Some?)
    {
      longer := run;
      if Unavailable(state.driver, copy) {
        longer := Teardown(BackendUnavailable, start, longer);
        verdict := DeletionBlocked;
      } else if !calls.deleteOk {
        longer := Teardown(DeleteUnfinished, start, longer);
        verdict := Unfinished;
      } else {
        longer := Teardown(DeleteOk, start, longer);
        verdict := Released;
        return;
      }
      longer := Teardown(Unready, start, longer);
    }

    /** The backend's part of reconcileDelete, once the live list showed no access. */
    method ClearBackend(copy: Buckety, calls: Calls, ghost start: State, ghost run: seq<Event>)
      returns (verdict: Verdict, ghost longer: seq<Event>)
      requires state.bpc == Cleared(copy) && Did(start, run)
      modifies this
      ensures Did(start, longer)
      ensures verdict == Released <==> (DeletesBackend(copy) ==> !Unavailable(old(state).driver, copy) && calls.deleteOk)
      ensures verdict == Released ==> state.bpc == Releasing(copy, DeletesBackend(copy)) && state.bky == old(state).bky
      ensures verdict != Released ==>
        state.bpc.BIdle? && verdict in {DeletionBlocked, Unfinished} && (state.bky.Some? ==> !state.bky.value.ready)
      ensures
        state.calls ==
        if DeletesBackend(copy) && !Unavailable(old(state).driver, copy)
        then old(state).calls + {DeleteCall(old(state).driver.value, copy.stamp.value.resource)} else old(state).calls
      ensures state.frozen == old(state).frozen && (state.bky.Some? <==> old(state).bky.Some?)
    {
      longer := run;
      if copy.retention == Delete && copy.stamp.Some? && copy.stamp.value.provenance == Adopted {
        longer := Teardown(KeepAdopted, start, longer);
        verdict := Released;
      } else if copy.retention == Delete && copy.stamp.Some? {
        verdict, longer := DeleteBackend(copy, calls, start, longer);
      } else {
        longer := Teardown(NothingToDelete, start, longer);
        verdict := Released;
      }
    }

    /** reconcileDelete once its live list showed no access. */
    method DeleteAndRelease(copy: Buckety, calls: Calls, ghost start: State, ghost run: seq<Event>)
      returns (verdict: Verdict, ghost longer: seq<Event>)
      requires state.bpc == Cleared(copy) && Did(start, run)
      modifies this
      ensures Did(start, longer) && state.bpc.BIdle?
      ensures
        state.calls ==
        if copy.retention == Delete && copy.stamp.Some? && copy.stamp.value.provenance != Adopted &&
           old(state).driver == Some(copy.stamp.value.driver)
        then old(state).calls + {DeleteCall(copy.stamp.value.driver, copy.stamp.value.resource)} else old(state).calls
      ensures verdict == Released <==>
        calls.writeOk && old(state).bky == Some(copy) &&
        (copy.retention == Delete && copy.stamp.Some? && copy.stamp.value.provenance != Adopted ==>
         old(state).driver == Some(copy.stamp.value.driver) && calls.deleteOk)
      ensures verdict in {Released, DeletionBlocked, Unfinished, Failed} && state.frozen == old(state).frozen
      ensures verdict in {DeletionBlocked, Unfinished} && state.bky.Some? ==> !state.bky.value.ready
      ensures verdict == Released ==> state.bky.None?
      ensures verdict != Released ==> (state.bky.Some? <==> old(state).bky.Some?)
    {
      verdict, longer := ClearBackend(copy, calls, start, run);
      if verdict != Released {
        return;
      }
      if !calls.writeOk || state.bky != Some(copy) {
        longer := Teardown(ReleaseConflict, start, longer);
        verdict := Failed;
        return;
      }
      longer := Teardown(ReleaseOk, start, longer);
      verdict := Released;
    }

    /** reconcileDelete.  Nothing is destroyed while an access exists, an
        adopted resource is kept, and under retentionPolicy=Delete the finalizer
        goes only after DeleteBuckety returned nil. */
    method ReconcileDelete(copy: Buckety, calls: Calls) returns (verdict: Verdict, ghost run: seq<Event>)
      requires TeardownEnabled(state, Tear(copy))
      requires state.accesses != map[] ==> calls.first in state.accesses
      modifies this
      ensures Did(old(state), run) && state.bpc.BIdle?
      // a live list that fails, or shows an explicit access, changes nothing
      ensures !calls.listOk ==> verdict == Failed && state == old(state)
      ensures calls.listOk && (exists n <- old(state).accesses :: !old(state).accesses[n].implicit) ==>
        verdict == BlockedByAccesses && state == old(state)
      // an implicit access is deleted first, and waited for
      ensures calls.listOk && old(state).accesses != map[] && (forall n <- old(state).accesses :: old(state).accesses[n].implicit) ==>
        verdict == RevokingAccesses && state.calls == old(state).calls && (state.bky.Some? <==> old(state).bky.Some?) &&
        state.accesses ==
        if old(state).accesses[calls.first].deleting then old(state).accesses
        else if old(state).accesses[calls.first].finalizer
        then old(state).accesses[calls.first := old(state).accesses[calls.first].(deleting := true)]
        else old(state).accesses - {calls.first}
      // the backend is asked to delete exactly when the policy is Delete, the resource
      // was not adopted, and the driver is the stamped one
      ensures calls.listOk && old(state).accesses == map[] ==>
        state.calls ==
        if copy.retention == Delete && copy.stamp.Some? && copy.stamp.value.provenance != Adopted &&
           old(state).driver == Some(copy.stamp.value.driver)
        then old(state).calls + {DeleteCall(copy.stamp.value.driver, copy.stamp.value.resource)} else old(state).calls
      ensures copy.retention == Retain ==>
        && state.calls == old(state).calls
        && (verdict == Released <==> calls.listOk && old(state).accesses == map[] && calls.writeOk && old(state).bky == Some(copy))
      ensures verdict == Released <==>
        calls.listOk && old(state).accesses == map[] && calls.writeOk && old(state).bky == Some(copy) &&
        (copy.retention == Delete && copy.stamp.Some? && copy.stamp.value.provenance != Adopted ==>
         old(state).driver == Some(copy.stamp.value.driver) && calls.deleteOk)
      ensures verdict == Released ==> state.bky.None?
      ensures verdict != Released ==> (state.bky.Some? <==> old(state).bky.Some?)
      ensures verdict in {Failed, BlockedByAccesses, RevokingAccesses, DeletionBlocked, Unfinished, Released} && state.frozen == old(state).frozen
      ensures verdict in {RevokingAccesses, DeletionBlocked, Unfinished} && state.bky.Some? ==> !state.bky.value.ready
    {
      hide DeletesBackend, Unavailable, Called;
      run := [];
      if !calls.listOk {
        return Failed, run;
      }
      run := Teardown(Tear(copy), old(state), run);
      if exists n <- state.accesses :: !state.accesses[n].implicit {
        run := Teardown(ListBlocked, old(state), run);
        return BlockedByAccesses, run;
      }
      if state.accesses != map[] {
        run := Teardown(ListImplicit(calls.first), old(state), run);
        run := Teardown(Unready, old(state), run);
        return RevokingAccesses, run;
      }
      run := Teardown(ListClear, old(state), run);
      verdict, run := DeleteAndRelease(copy, calls, old(state), run);
    }

    /** First reconcile: inspect, decide on the provenance, freeze it with the name. */
    method ClaimResource(copy: Buckety, calls: Calls) returns (verdict: Verdict, ghost run: seq<Event>)
      requires state.bpc.BIdle? && copy in state.copies && !copy.deleting && copy.finalizer && copy.stamp.None? && state.driver.Some?
      modifies this
      ensures Did(old(state), run) && state.bpc.BIdle?
      ensures state.calls == old(state).calls && state.accesses == old(state).accesses
      // a stamp is persisted exactly once, on the version it was decided on, and never over a refusal
      ensures verdict == Settled <==>
        calls.resolved.Some? && calls.inspection.Some? && calls.writeOk && old(state).bky == Some(copy) &&
        !(calls.inspection.value.exists_ && !calls.inspection.value.empty && copy.adoption == AdoptEmpty)
      ensures verdict == Settled ==>
        state.bky.Some? && state.inspected == calls.inspection &&
        state.bky.value.stamp == Some(Stamp(old(state).driver.value, calls.resolved.value,
                                            if calls.inspection.value.exists_ then Adopted else Created))
      ensures verdict != Settled ==> state.frozen == old(state).frozen && state.inspected == old(state).inspected
      ensures verdict == Refused && state.bky.Some? ==> !state.bky.value.ready
      ensures (state.bky.Some? <==> old(state).bky.Some?) && state.driver == old(state).driver && verdict in {Settled, Refused, Failed}
      ensures verdict == Settled ==> state.bky.value in state.copies && !state.bky.value.deleting && state.bky.value.finalizer
    {
      run := [];
      if calls.resolved.None? || calls.inspection.None? {
        run := Teardown(Unready, old(state), run);
        return Failed, run;
      }
      run := Provision(Inspect(copy, calls.resolved.value, calls.inspection.value), old(state), run);
      if DecideProvenance(calls.inspection.value, copy.adoption).None? {
        run := Provision(RefuseAdoption, old(state), run);
        run := Teardown(Unready, old(state), run);
        return Refused, run;
      }
      if !calls.writeOk || state.bky != Some(copy) {
        run := Provision(StampConflict, old(state), run);
        return Failed, run;
      }
      run := Provision(StampOk, old(state), run);
      verdict := Settled;
    }

    /** reconcileImplicitAccess, as far as the accesses go. */
    method ReconcileImplicit(implicit: ImplicitCall, ghost start: State, ghost run: seq<Event>) returns (ghost longer: seq<Event>)
      requires state.bpc.Serving? && Did(start, run)
      modifies this
      ensures Did(start, longer) && state == old(state).(accesses := AccessesAfter(old(state), implicit))
    {
      longer := run;
      match implicit
      case CreateAccess(name) => longer := Provision(CreateImplicit(name), start, longer);
      case ReclaimAccess(name) => longer := Provision(ReclaimImplicit(name), start, longer);
      case _ =>
    }

    /** The served part of a pass: ensure the resource, reconcile the implicit
        access, report.  A failure of the implicit access or of the patch leaves
        status as it is, like a crash. */
    method ServeBuckety(copy: Buckety, calls: Calls, ghost start: State, ghost run: seq<Event>)
      returns (verdict: Verdict, ghost longer: seq<Event>)
      requires state.bpc == Serving(copy) && Did(start, run)
      modifies this
      ensures Did(start, longer) && state.bpc.BIdle?
      ensures verdict == if !calls.ensured then NotEnsured else if calls.implicit.ImplicitFails? || !calls.patched then Unpatched else Settled
      ensures state.accesses == if verdict == NotEnsured then old(state).accesses else AccessesAfter(old(state), calls.implicit)
      ensures state.bky.Some? <==> old(state).bky.Some?
      ensures verdict == Unpatched ==> state.bky == old(state).bky
      ensures verdict == Settled && state.bky.Some? ==> state.bky.value.ready
      ensures verdict == NotEnsured && calls.patched && state.bky.Some? ==> !state.bky.value.ready
      ensures state.calls == old(state).calls && state.frozen == old(state).frozen && old(state).copies <= state.copies
    {
      longer := run;
      if !calls.ensured {
        if calls.patched {
          longer := Provision(Report(false), start, longer);
        } else {
          longer := Teardown(BucketyCrash, start, longer);
        }
        return NotEnsured, longer;
      }
      longer := ReconcileImplicit(calls.implicit, start, longer);
      if calls.implicit.ImplicitFails? || !calls.patched {
        longer := Teardown(BucketyCrash, start, longer);
        return Unpatched, longer;
      }
      longer := Provision(Report(true), start, longer);
      verdict := Settled;
    }

    /** The pass on a copy that is not terminating, branch by branch. */
    method Provide(copy: Buckety, calls: Calls) returns (verdict: Verdict, ghost run: seq<Event>)
      requires state.bpc.BIdle? && copy in state.copies && !copy.deleting
      modifies this
      ensures Did(old(state), run) && state.bpc.BIdle?
      ensures state.calls == old(state).calls && (state.bky.Some? <==> old(state).bky.Some?)
      ensures verdict in {FinalizerAdded, Paused, Refused, Failed, Settled, NotEnsured, Unpatched}
      ensures verdict == Settled && state.bky.Some? ==> state.bky.value.ready
      ensures
        state.bky.Some? && (verdict in {Paused, Refused} || (verdict == NotEnsured && calls.patched)) ==> !state.bky.value.ready
      ensures verdict == FinalizerAdded && old(state).bky.Some? ==>
        state.bky.Some? &&
        if old(state).bky.value.deleting then state.bky == old(state).bky else state.bky.value.finalizer
      ensures state.accesses == if verdict in {Settled, Unpatched} then AccessesAfter(old(state), calls.implicit) else old(state).accesses
      ensures verdict == Settled ==> calls.ensured && !calls.implicit.ImplicitFails? && calls.patched
      ensures verdict == Paused <==>
        && copy.finalizer
        && (old(state).driver.None? || (copy.stamp.Some? && old(state).driver != Some(copy.stamp.value.driver)))
      ensures verdict == Settled ==> exists c <- state.copies :: c.stamp.Some?
      ensures copy.stamp.Some? ==> state.frozen == old(state).frozen
    {
      hide AccessesAfter, Removed, DeletesBackend, DecideProvenance;
      run := [];
      if !copy.finalizer {
        run := Provision(AddFinalizer(copy), old(state), run);
        return FinalizerAdded, run;
      }
      if Unavailable(state.driver, copy) {
        run := Teardown(Unready, old(state), run);
        return Paused, run;
      }
      var current := copy;
      if copy.stamp.None? {
        verdict, run := ClaimResource(copy, calls);
        if verdict != Settled {
          return;
        }
        current := state.bky.value;
      }
      run := Provision(Serve(current), old(state), run);
      AccessesAfterDepends(old(state), state, calls.implicit);
      verdict, run := ServeBuckety(current, calls, old(state), run);
      assert current in state.copies && current.stamp.Some?;
    }

    /** The pass, branch by branch. */
    method Pass(copy: Buckety, calls: Calls) returns (verdict: Verdict, ghost run: seq<Event>)
      requires state.bpc.BIdle? && copy in state.copies
      requires state.accesses != map[] ==> calls.first in state.accesses
      modifies this
      ensures Did(old(state), run) && state.bpc.BIdle?
      ensures !copy.deleting ==> state.calls == old(state).calls && (state.bky.Some? <==> old(state).bky.Some?)
      ensures verdict == Released ==> copy.deleting && old(state).accesses == map[]
      ensures verdict == Settled && state.bky.Some? ==> state.bky.value.ready
      // every pass that stops short of serving, and reports it, says so
      ensures
        state.bky.Some? &&
        (verdict in {Paused, Refused, RevokingAccesses, DeletionBlocked, Unfinished} || (verdict == NotEnsured && calls.patched))
        ==> !state.bky.value.ready
      ensures verdict == FinalizerAdded && old(state).bky.Some? ==>
        state.bky.Some? &&
        if old(state).bky.value.deleting then state.bky == old(state).bky else state.bky.value.finalizer
      ensures !copy.deleting ==>
        state.accesses == if verdict in {Settled, Unpatched} then AccessesAfter(old(state), calls.implicit) else old(state).accesses
      ensures verdict == Settled ==> calls.ensured && !calls.implicit.ImplicitFails? && calls.patched
      ensures verdict == Paused <==>
        && !copy.deleting && copy.finalizer
        && (old(state).driver.None? || (copy.stamp.Some? && old(state).driver != Some(copy.stamp.value.driver)))
      ensures verdict == Settled ==> exists c <- state.copies :: c.stamp.Some?
      ensures copy.stamp.Some? || copy.deleting ==> state.frozen == old(state).frozen
    {
      hide AccessesAfter, Removed, DeletesBackend, DecideProvenance, Unavailable;
      if copy.deleting {
        verdict, run := ReconcileDelete(copy, calls);
      } else {
        verdict, run := Provide(copy, calls);
      }
    }

    /** A whole pass on a copy of the Buckety.  Only the copy's deletion timestamp
        can lead to DeleteBuckety or to losing the object; otherwise accesses change
        only as the implicit access is reconciled, after the resource was ensured;
        what holds of every run is kept, as the pass is a run of its own steps; and,
        where that held, a settled pass leaves the Buckety stamped and Ready. */
    method Reconcile(copy: Buckety, calls: Calls) returns (verdict: Verdict, ghost run: seq<Event>)
      requires state.bpc.BIdle? && copy in state.copies
      requires state.accesses != map[] ==> calls.first in state.accesses
      modifies this
      ensures Did(old(state), run) && NoRace(old(state), run) && state.bpc.BIdle?
      ensures !copy.deleting ==> state.calls == old(state).calls && (state.bky.Some? <==> old(state).bky.Some?)
      ensures verdict == Released ==> copy.deleting && old(state).accesses == map[]
      ensures verdict == Settled && state.bky.Some? ==> state.bky.value.ready
      // every pass that stops short of serving, and reports it, says so
      ensures
        state.bky.Some? &&
        (verdict in {Paused, Refused, RevokingAccesses, DeletionBlocked, Unfinished} || (verdict == NotEnsured && calls.patched))
        ==> !state.bky.value.ready
      ensures verdict == FinalizerAdded && old(state).bky.Some? ==>
        state.bky.Some? &&
        if old(state).bky.value.deleting then state.bky == old(state).bky else state.bky.value.finalizer
      ensures !copy.deleting && verdict !in {Settled, Unpatched} ==> state.accesses == old(state).accesses
      ensures !copy.deleting && verdict in {Settled, Unpatched} ==>
        var was := old(state).accesses;
        match calls.implicit
        case CreateAccess(n) => state.accesses == if n in was then was else was[n := Access(true, false, false, NoPrincipal)]
        case ReclaimAccess(n) =>
          state.accesses ==
          if n in was && was[n].finalizer then was[n := was[n].(deleting := true)] else was - {n}
        case _ => state.accesses == was
      ensures verdict == Settled ==> calls.ensured && !calls.implicit.ImplicitFails? && calls.patched
      ensures verdict == Paused <==>
        && !copy.deleting && copy.finalizer
        && (old(state).driver.None? || (copy.stamp.Some? && old(state).driver != Some(copy.stamp.value.driver)))
      ensures old(Safe(state)) ==> Safe(state) && (verdict == Settled && state.bky.Some? ==> state.bky.value.stamp.Some?)
      ensures old(Safe(state)) && old(Protected(state)) ==> Protected(state)
      ensures copy.stamp.Some? || copy.deleting ==> state.frozen == old(state).frozen
    {
      verdict, run := Pass(copy, calls);
      OwnStepsNoRace(old(state), run);
      if old(Safe(state)) {
        RunSafe(old(state), run);
        if old(Protected(state)) {
          RunProtected(old(state), run);
        }
      }
    }
  }
}
