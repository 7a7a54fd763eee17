/** The implicit BucketyAccess: what one pass of the Buckety reconciler does
    about it, and where alternating passes of the two reconcilers end up. */
module ImplicitAccess {

  import opened Wrappers

  datatype Access = Access(
    ref: string, implicit: bool, secret: string, role: string, finalizer: bool, deleting: bool)

  /** spec.defaultAccess. */
  datatype Default = Default(secret: string, role: string)

  type Namespace = map<string, Access>

  const READ_WRITE := "ReadWrite"

  function DesiredRole(d: Default): string {
    if d.role == "" then READ_WRITE else d.role
  }

  /** The access a pass creates: named after the Buckety, no finalizer yet. */
  function NewImplicit(b: string, d: Default): Access {
    Access(b, true, d.secret, DesiredRole(d), false, false)
  }

  predicate IsImplicitOf(a: Access, b: string) {
    a.ref == b && a.implicit
  }

  predicate ExplicitExists(ns: Namespace, b: string) {
    exists name <- ns :: ns[name].ref == b && !ns[name].implicit
  }

  predicate Wanted(ns: Namespace, b: string, d: Option<Default>) {
    d.Some? && !ExplicitExists(ns, b)
  }

  /** Only the controller labels accesses implicit, and it names them after the Buckety. */
  predicate OwnLabels(ns: Namespace, b: string) {
    forall name <- ns :: IsImplicitOf(ns[name], b) ==> name == b
  }

  /** Delete: a finalizer holds the object back, otherwise it is gone. */
  function Deleted(ns: Namespace, name: string): Namespace {
    if name !in ns then ns
    else if ns[name].finalizer then ns[name := ns[name].(deleting := true)]
    else ns - {name}
  }

  // ---- One pass of each reconciler, on current reads ----

  /** reconcileImplicitAccess. */
  function BucketyPass(ns: Namespace, b: string, d: Option<Default>): Namespace {
    var implicit := b in ns && IsImplicitOf(ns[b], b);
    if Wanted(ns, b, d) && !implicit then
      if b in ns then ns else ns[b := NewImplicit(b, d.value)]     // AlreadyExists is ignored
    else if implicit && (!Wanted(ns, b, d) || ns[b].secret != d.value.secret) then Deleted(ns, b)
    else if implicit && ns[b].role != DesiredRole(d.value) then ns[b := ns[b].(role := DesiredRole(d.value))]
    else ns
  }

  /** A pass of the access reconciler over `name` whose RevokeAccess succeeds, as far as the object goes. */
  function AccessPass(ns: Namespace, name: string): Namespace {
    if name !in ns then ns
    else if ns[name].deleting then ns - {name}
    else if !ns[name].finalizer then ns[name := ns[name].(finalizer := true)]
    else ns
  }

  /** Passes of the access reconciler over these accesses, one after the other. */
  function AccessPasses(ns: Namespace, names: seq<string>): Namespace
    decreases |names|
  {
    if names == [] then ns else AccessPasses(AccessPass(ns, names[0]), names[1..])
  }

  /** The namespace once every access in it has had its pass. */
  function Swept(ns: Namespace): Namespace {
    map name <- ns | !ns[name].deleting :: ns[name].(finalizer := true)
  }

  /** Passes over all accesses, in any order and with repetitions, come to the same. */
  lemma {:induction false} PassesSweep(ns: Namespace, names: seq<string>)
    requires forall name <- ns :: name in names || AccessPass(ns, name) == ns
    ensures AccessPasses(ns, names) == Swept(ns)
    decreases |names|
  {
    if names == [] {
      forall name | name in ns ensures !ns[name].deleting && ns[name].finalizer {
        assert AccessPass(ns, name) == ns;
      }
      assert Swept(ns) == ns;
    } else {
      var m := AccessPass(ns, names[0]);
      forall name | name in m ensures name in names[1..] || AccessPass(m, name) == m {
        if name != names[0] && name in ns && name !in names {
          assert AccessPass(ns, name) == ns;
        }
      }
      PassesSweep(m, names[1..]);
      assert Swept(m) == Swept(ns);
    }
  }

  /** A pass over the Buckety, then one over each access of the namespace. */
  function Round(ns: Namespace, b: string, d: Option<Default>): Namespace {
    Swept(BucketyPass(ns, b, d))
  }

  function Rounds(ns: Namespace, b: string, d: Option<Default>, n: nat): Namespace
    decreases n
  {
    if n == 0 then ns else Rounds(Round(ns, b, d), b, d, n - 1)
  }

  /** Where it should end: the implicit access is there, live and as asked for,
      exactly when it is wanted; otherwise nothing of that name is implicit or
      still on its way out. */
  predicate Converged(ns: Namespace, b: string, d: Option<Default>) {
    if Wanted(ns, b, d) then b in ns && ns[b] == NewImplicit(b, d.value).(finalizer := true)
    else b in ns ==> !IsImplicitOf(ns[b], b) && !ns[b].deleting
  }

  /** The Buckety's name is taken by an access of another Buckety that is there to
      stay, and every explicit access of the Buckety is on its way out. */
  predicate Occupied(ns: Namespace, b: string, d: Option<Default>) {
    && d.Some? && b in ns && ns[b].ref != b && !ns[b].deleting
    && forall name <- ns :: ns[name].ref == b && !ns[name].implicit ==> ns[name].deleting
  }

  /** An explicit access of the Buckety, under a name of its own, is on its way out. */
  predicate Leaving(ns: Namespace, b: string) {
    exists name <- ns :: name != b && ns[name].ref == b && !ns[name].implicit && ns[name].deleting
  }

  /** Passes still needed, as a number every useful round lowers. */
  function Distance(ns: Namespace, b: string, d: Option<Default>): (n: nat)
    ensures n <= 6
  {
    if Leaving(ns, b) then 6
    else if Converged(ns, b, d) then 0
    else if !Wanted(ns, b, d) then
      if !IsImplicitOf(ns[b], b) then 3        // another access of that name on its way out
      else if ns[b].deleting then 1
      else if ns[b].finalizer then 2 else 3
    else if b !in ns then 2
    else if !IsImplicitOf(ns[b], b) then 3
    else if ns[b].deleting then (if ns[b].secret == d.value.secret && ns[b].role != DesiredRole(d.value) then 4 else 3)
    else if ns[b].secret != d.value.secret then (if ns[b].finalizer then 5 else 6)
    else (if ns[b].role != DesiredRole(d.value) then 1 else 0) + (if ns[b].finalizer then 0 else 1)
  }

  lemma OthersKept(ns: Namespace, m: Namespace, b: string)
    requires ns - {b} == m - {b}
    ensures ExplicitExists(m, b) <==> ExplicitExists(ns - {b}, b) || (b in m && m[b].ref == b && !m[b].implicit)
    ensures OwnLabels(ns, b) ==> OwnLabels(m, b)
    ensures Leaving(ns, b) <==> Leaving(m, b)
  {
    assert forall name | name != b :: (name in ns <==> name in ns - {b}) && (name in m <==> name in m - {b});
    assert forall name <- m :: name != b ==> name in (ns - {b}) && (ns - {b})[name] == m[name];
    assert forall name <- ns :: name != b ==> name in (m - {b}) && (m - {b})[name] == ns[name];
  }

  /** What a sweep leaves of the explicit accesses. */
  lemma SweptExplicit(m: Namespace, b: string)
    ensures ExplicitExists(Swept(m), b) <==> exists name <- m :: m[name].ref == b && !m[name].implicit && !m[name].deleting
    ensures OwnLabels(m, b) ==> OwnLabels(Swept(m), b)
    ensures !Leaving(Swept(m), b)
  {
    var k := Swept(m);
    if name :| name in m && m[name].ref == b && !m[name].implicit && !m[name].deleting {
      assert name in k;
    }
  }

  /** The Buckety's pass touches no access but the one of its name. */
  lemma BucketyPassKeeps(ns: Namespace, b: string, d: Option<Default>)
    ensures ns - {b} == BucketyPass(ns, b, d) - {b}
    ensures ExplicitExists(ns, b) <==> ExplicitExists(BucketyPass(ns, b, d), b)
    ensures OwnLabels(ns, b) ==> OwnLabels(BucketyPass(ns, b, d), b)
    ensures Leaving(ns, b) <==> Leaving(BucketyPass(ns, b, d), b)
  {
    OthersKept(ns, ns, b);
    OthersKept(ns, BucketyPass(ns, b, d), b);
  }

  lemma BucketyPassShortens(ns: Namespace, b: string, d: Option<Default>)
    requires OwnLabels(ns, b)
    ensures Distance(BucketyPass(ns, b, d), b, d) <= Distance(ns, b, d)
    ensures Occupied(BucketyPass(ns, b, d), b, d) <==> Occupied(ns, b, d)
  {
    BucketyPassKeeps(ns, b, d);
    var m := BucketyPass(ns, b, d);
    assert forall name | name != b :: name in ns - {b} <==> name in ns;
    assert forall name | name != b :: name in m - {b} <==> name in m;
    assert forall name <- ns :: name != b ==> name in m - {b} && m[name] == (m - {b})[name] == (ns - {b})[name] == ns[name];
  }

  lemma SweepShortens(m: Namespace, b: string, d: Option<Default>)
    requires OwnLabels(m, b) && !Occupied(m, b, d)
    ensures Distance(Swept(m), b, d) <= Distance(m, b, d)
  {
    SweptExplicit(m, b);
  }

  /** A pass over the Buckety never lengthens the way, nor do the passes over all
      accesses that follow it; together they shorten it. */
  lemma RoundShortens(ns: Namespace, b: string, d: Option<Default>)
    requires OwnLabels(ns, b) && !Occupied(ns, b, d)
    ensures
      var m := BucketyPass(ns, b, d);
      var k := Round(ns, b, d);
      && Distance(m, b, d) <= Distance(ns, b, d)
      && Distance(k, b, d) <= Distance(m, b, d)
      && (Distance(ns, b, d) > 0 ==> Distance(k, b, d) < Distance(ns, b, d))
      && OwnLabels(k, b) && !Occupied(k, b, d)
  {
    var m := BucketyPass(ns, b, d);
    BucketyPassKeeps(ns, b, d);
    BucketyPassShortens(ns, b, d);
    SweepShortens(m, b, d);
    SweptExplicit(m, b);
  }

  lemma {:induction false} RoundsConverge(ns: Namespace, b: string, d: Option<Default>, n: nat)
    requires OwnLabels(ns, b) && !Occupied(ns, b, d)
    requires n >= Distance(ns, b, d)
    ensures Converged(Rounds(ns, b, d, n), b, d)
    decreases n
  {
    if n > 0 {
      RoundShortens(ns, b, d);
      RoundsConverge(Round(ns, b, d), b, d, n - 1);
    } else {
      assert Distance(ns, b, d) == 0;
    }
  }

  lemma {:induction false} TakenStaysTaken(ns: Namespace, b: string, d: Option<Default>, n: nat)
    requires Occupied(ns, b, d) && n > 0
    ensures !Converged(Rounds(ns, b, d, n), b, d)
    decreases n
  {
    var k := Round(ns, b, d);
    assert BucketyPass(ns, b, d) == ns;
    SweptExplicit(ns, b);
    assert Wanted(k, b, d) && Occupied(k, b, d);
    if n == 1 {
      assert Rounds(k, b, d, 0) == k;
    } else {
      TakenStaysTaken(k, b, d, n - 1);
    }
  }

  /** Rounds over all accesses of any namespace reach the asked-for state, within
      six and for good, exactly unless an access of another Buckety occupies the
      name and no explicit access lasts: the create is then answered
      AlreadyExists, which the pass takes for success. */
  lemma ConvergesExactly(ns: Namespace, b: string, d: Option<Default>)
    requires OwnLabels(ns, b)
    ensures !Occupied(ns, b, d) ==> forall n: nat :: n >= 6 ==> Converged(Rounds(ns, b, d, n), b, d)
    // with an access wanted, it is the default's: its Secret and its role, ReadWrite when none is given
    ensures !Occupied(ns, b, d) && d.Some? ==>
      forall n: nat :: n >= 6 ==>
        var end := Rounds(ns, b, d, n);
        (exists name <- end :: end[name].ref == b && !end[name].implicit)
        || (b in end && end[b] == Access(b, true, d.value.secret, if d.value.role == "" then "ReadWrite" else d.value.role, true, false))
    ensures Occupied(ns, b, d) ==> forall n: nat :: n >= 1 ==> !Converged(Rounds(ns, b, d, n), b, d)
  {
    forall n: nat
      ensures !Occupied(ns, b, d) && n >= 6 ==> Converged(Rounds(ns, b, d, n), b, d)
      ensures Occupied(ns, b, d) && n >= 1 ==> !Converged(Rounds(ns, b, d, n), b, d)
    {
      if Occupied(ns, b, d) {
        if n >= 1 {
          TakenStaysTaken(ns, b, d, n);
        }
      } else if n >= 6 {
        RoundsConverge(ns, b, d, n);
      }
    }
  }

  // ---- The pass on a list that may lag ----

  datatype Listed = Listed(name: string, access: Access)

  /** The list is current: exactly the stored objects. */
  ghost predicate Current(list: seq<Listed>, ns: Namespace) {
    && (forall i | 0 <= i < |list| :: list[i].name in ns && ns[list[i].name] == list[i].access)
    && (forall name <- ns :: exists i :: 0 <= i < |list| && list[i].name == name)
  }

  /** The list entry the pass takes for the implicit access: the last one, if several. */
  function LastImplicit(list: seq<Listed>, b: string): Option<Listed>
    decreases |list|
  {
    if list == [] then None
    else if IsImplicitOf(list[|list| - 1].access, b) then Some(list[|list| - 1])
    else LastImplicit(list[..|list| - 1], b)
  }

  predicate ListsExplicit(list: seq<Listed>, b: string) {
    exists l <- list :: l.access.ref == b && !l.access.implicit
  }

  /** The pass deletes by this name, whatever object has it by now. */
  predicate DeletesName(list: seq<Listed>, b: string, d: Option<Default>, name: string) {
    var l := LastImplicit(list, b);
    && l.Some? && l.value.name == name
    && (d.None? || ListsExplicit(list, b) || l.value.access.secret != d.value.secret)
  }

  lemma {:induction false} LastImplicitListed(list: seq<Listed>, b: string)
    ensures
      var l := LastImplicit(list, b);
      if l.Some? then l.value in list && IsImplicitOf(l.value.access, b)
      else forall l <- list :: !IsImplicitOf(l.access, b)
    decreases |list|
  {
    if list != [] {
      LastImplicitListed(list[..|list| - 1], b);
      assert list == list[..|list| - 1] + [list[|list| - 1]];
    }
  }

  lemma CurrentList(list: seq<Listed>, ns: Namespace, b: string)
    requires Current(list, ns) && OwnLabels(ns, b)
    ensures ListsExplicit(list, b) <==> ExplicitExists(ns, b)
    ensures LastImplicit(list, b) == if b in ns && IsImplicitOf(ns[b], b) then Some(Listed(b, ns[b])) else None
  {
    LastImplicitListed(list, b);
    assert forall l <- list :: l.name in ns && ns[l.name] == l.access;
    forall name | name in ns ensures Listed(name, ns[name]) in list {
      var i :| 0 <= i < |list| && list[i].name == name;
      assert list[i] == Listed(name, ns[name]);
    }
  }

  /** The loop over the list: the implicit access to act on, and whether an explicit one is listed. */
  method Scan(list: seq<Listed>, b: string) returns (implicit: Option<Listed>, explicitExists: bool)
    ensures implicit == LastImplicit(list, b)
    ensures explicitExists <==> ListsExplicit(list, b)
  {
    implicit, explicitExists := None, false;
    for i := 0 to |list|
      invariant implicit == LastImplicit(list[..i], b)
      invariant explicitExists <==> ListsExplicit(list[..i], b)
    {
      var l := list[i];
      assert list[..i + 1] == list[..i] + [l] && list[..i + 1][..i] == list[..i];
      if l.access.ref == b {
        if l.access.implicit {
          implicit := Some(l);
        } else {
          explicitExists := true;
        }
      }
    }
    assert list[..|list|] == list;
  }

  class ApiServer {
    var accesses: Namespace

    constructor (accesses: Namespace)
      ensures this.accesses == accesses
    {
      this.accesses := accesses;
    }

    /** reconcileImplicitAccess over a cached list.  Only the role update, which
        carries the version listed, can fail; a lagging list never makes the
        create or a delete fail.  On a current list it is BucketyPass. */
    method ReconcileImplicitAccess(b: string, d: Option<Default>, list: seq<Listed>) returns (ok: bool)
      modifies this
      ensures !ok <==>
        var l := LastImplicit(list, b);
        && l.Some? && d.Some? && !ListsExplicit(list, b) && l.value.access.secret == d.value.secret
        && l.value.access.role != DesiredRole(d.value)
        && !(l.value.name in old(accesses) && old(accesses)[l.value.name] == l.value.access)
      ensures !ok ==> accesses == old(accesses)
      ensures Current(list, old(accesses)) && OwnLabels(old(accesses), b) ==>
        ok && accesses == BucketyPass(old(accesses), b, d)
      // any access but the Buckety's implicit one is changed exactly when the pass
      // deletes by its name and it is not already held back by a finalizer
      ensures forall name <- old(accesses) :: !IsImplicitOf(old(accesses)[name], b) ==>
        (!(name in accesses && accesses[name] == old(accesses)[name]) <==>
         DeletesName(list, b, d, name) && !(old(accesses)[name].deleting && old(accesses)[name].finalizer))
      // what the pass creates or updates is the default's: its Secret and its role,
      // ReadWrite when none is given
      ensures forall name <- accesses ::
        || (name in old(accesses) && accesses[name] in {old(accesses)[name], old(accesses)[name].(deleting := true)})
        || (&& d.Some? && accesses[name].ref == b && accesses[name].implicit && accesses[name].secret == d.value.secret
            && accesses[name].role == if d.value.role == "" then "ReadWrite" else d.value.role)
      // an access the list does not show as implicit is left as it is
      ensures forall name <- old(accesses) ::
        (forall l <- list :: l.name == name ==> !IsImplicitOf(l.access, b)) ==>
          name in accesses && accesses[name] == old(accesses)[name]
    {
      var implicit, explicitExists := Scan(list, b);
      LastImplicitListed(list, b);
      if Current(list, accesses) && OwnLabels(accesses, b) {
        CurrentList(list, accesses, b);
      }
      ok := true;
      if d.Some? && !explicitExists {
        match implicit {
          case None =>
            if b !in accesses {
              accesses := accesses[b := NewImplicit(b, d.value)];
            }
          case Some(l) =>
            if l.access.secret != d.value.secret {
              accesses := Deleted(accesses, l.name);
            } else if l.access.role != DesiredRole(d.value) {
              if l.name in accesses && accesses[l.name] == l.access {
                accesses := accesses[l.name := l.access.(role := DesiredRole(d.value))];
              } else {
                ok := false;
              }
            }
        }
      } else if implicit.Some? {
        accesses := Deleted(accesses, implicit.value.name);
      }
    }
  }
}
