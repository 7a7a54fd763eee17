/** The mysql driver's calls, any of which may fail: a statement may be lost on
    the way there or its answer on the way back, a login may be refused by a node
    that lags behind. */
module MysqlDriver {
  import opened Wrappers
  import opened MysqlNames
  import opened MysqlAccounts
  import opened VerifiedAccounts

  const VERIFY_ATTEMPTS := 5

  class Driver {
    const c: Settings
    const userHost: string
    /** The passwords in use; the hash tells them apart. */
    ghost const used: set<string>

    /** The server, and how many calls have failed so far. */
    var world: World
    var faults: nat
    var seen: Seen

    ghost predicate Valid()
      reads this
    {
      ValidEnv(c.env) && Separates(c.hash, used) && Backed(c, userHost, used, world.accounts, seen)
    }

    ghost function Value(): State
      reads this
    {
      State(world, seen)
    }

    constructor (settings: Settings, host: string, ghost passwords: set<string>, server: Accounts)
      requires ValidEnv(settings.env) && Separates(settings.hash, passwords)
      ensures Valid() && Value() == State(World(server, []), map[]) && faults == 0
      ensures c == settings && userHost == host && used == passwords
    {
      c, userHost, used := settings, host, passwords;
      world, faults, seen := World(server, []), 0, map[];
    }

    method Exec(st: Statement) returns (reply: Reply)
      modifies this`world, this`faults
      ensures faults >= old(faults) && (reply.Unreachable? <==> faults > old(faults))
      ensures faults == old(faults) ==> (world, reply) == MysqlAccounts.Exec(c.env, old(world), st)
      ensures world.accounts in {old(world).accounts, Apply(c.env, old(world).accounts, st).0}
    {
      var lost, landed := *, *;
      var (after, answer) := MysqlAccounts.Exec(c.env, world, st);
      if !lost {
        world := after;
        return answer;
      }
      faults := faults + 1;
      if landed {
        world := after;
      }
      return Unreachable;
    }

    method Login(acct: Account, password: string, pattern: string) returns (reply: LoginReply)
      modifies this`faults
      ensures faults >= old(faults)
      ensures faults == old(faults) ==> reply == MysqlAccounts.Login(c.env, world.accounts, acct, password, pattern)
      ensures faults > old(faults) ==> reply.Denied? || reply.LoginFailed?
    {
      var lost, lagging := *, *;
      if !lost {
        return MysqlAccounts.Login(c.env, world.accounts, acct, password, pattern);
      }
      faults := faults + 1;
      return if lagging then Denied else LoginFailed;
    }

    method Grant(acct: Account, pattern: string, privileges: seq<string>) returns (ok: bool)
      modifies this`world, this`faults
      ensures faults >= old(faults) && (ok ==> faults == old(faults))
      ensures faults == old(faults) ==> (world, ok) == GrantAll(c.env, old(world), acct, pattern, privileges)
      ensures OthersKept(old(world).accounts, world.accounts, acct)
      ensures acct in old(world).accounts ==> acct in world.accounts
    {
      if |privileges| == 0 {
        return true;
      }
      var reply := Exec(Statement.Grant(acct, pattern, privileges));
      return reply == Done;
    }

    /** One statement each: a REVOKE of several is atomic. */
    method RevokeIfHeld(acct: Account, pattern: string, privileges: seq<string>) returns (ok: bool)
      modifies this`world, this`faults
      ensures faults >= old(faults) && (ok ==> faults == old(faults))
      ensures faults == old(faults) ==> (world, ok) == MysqlAccounts.RevokeIfHeld(c.env, old(world), acct, pattern, privileges)
      ensures OthersKept(old(world).accounts, world.accounts, acct)
      ensures acct in old(world).accounts ==> acct in world.accounts
    {
      for i := 0 to |privileges|
        invariant faults == old(faults)
        invariant MysqlAccounts.RevokeIfHeld(c.env, old(world), acct, pattern, privileges)
               == MysqlAccounts.RevokeIfHeld(c.env, world, acct, pattern, privileges[i..])
        invariant OthersKept(old(world).accounts, world.accounts, acct)
        invariant acct in old(world).accounts ==> acct in world.accounts
      {
        assert privileges[i..][1..] == privileges[i + 1..];
        var reply := Exec(Statement.Revoke(acct, pattern, [privileges[i]]));
        if reply != Done && reply != NoSuchGrant {
          return false;
        }
      }
      return true;
    }

    method AlignGrants(acct: Account, pattern: string, want: seq<string>, have: Option<Grants>) returns (ok: bool)
      modifies this`world, this`faults
      ensures faults >= old(faults) && (ok ==> faults == old(faults))
      ensures faults == old(faults) ==> (world, ok) == Align(c.env, old(world), acct, pattern, want, have)
      ensures OthersKept(old(world).accounts, world.accounts, acct)
      ensures acct in old(world).accounts ==> acct in world.accounts
    {
      if have.None? {
        ok := Grant(acct, pattern, want);
        if ok {
          ok := RevokeIfHeld(acct, pattern, Without(READ_WRITE, want));
        }
        return;
      }
      ok := Grant(acct, pattern, Without(want, have.value.privileges));
      if !ok {
        return;
      }
      var extra := Without(have.value.privileges, want);
      if |extra| > 0 {
        if exists p <- extra :: !PrivilegeName(p) {
          return false;
        }
        var reply := Exec(Statement.Revoke(acct, pattern, extra));
        if reply != Done {
          return false;
        }
      }
      if have.value.option {
        var reply := Exec(RevokeOption(acct, pattern));
        return reply == Done;
      }
      return true;
    }

    method SetPassword(acct: Account, password: string) returns (created: bool, ok: bool)
      modifies this`world, this`faults
      ensures faults >= old(faults) && (ok ==> faults == old(faults)) && (created ==> ok && acct !in old(world).accounts)
      ensures faults == old(faults) ==> (world, created, ok) == MysqlAccounts.SetPassword(c.env, old(world), acct, password)
      ensures OthersKept(old(world).accounts, world.accounts, acct)
      ensures acct in old(world).accounts ==> acct in world.accounts
    {
      var reply := Exec(CreateUser(acct, password));
      if reply == Done {
        return true, true;
      }
      if reply != CannotUser {
        return false, false;
      }
      reply := Exec(AlterUser(acct, password));
      return false, reply == Done;
    }

    /** Whatever calls fail: a verified pass leaves exactly the Secret's password
        and the role's privileges, a successful one at least the managed part of
        them, and no pass touches another account. */
    method EnsureAccount(acct: Account, password: string, fromSecret: bool, pattern: string, want: seq<string>)
      returns (created: bool, verified: bool, ok: bool)
      requires ValidEnv(c.env) && IsRole(want)
      modifies this`world, this`faults
      ensures faults >= old(faults)
      ensures faults == old(faults) ==>
                Ensured(world, created, verified, ok) == Ensure(c.env, old(world), acct, password, fromSecret, pattern, want)
      ensures ok && verified ==> fromSecret && Settled(c.env, world.accounts, acct, password, pattern, want)
      ensures ok ==> ManagedAccount(world.accounts, acct, password, pattern, want)
      ensures created ==> acct !in old(world).accounts
      ensures OthersKept(old(world).accounts, world.accounts, acct)
      ensures acct in old(world).accounts ==> acct in world.accounts
    {
      created, verified, ok := false, false, false;
      RoleNames(want);
      if fromSecret {
        var login := Login(acct, password, pattern);
        if login.LoggedIn? {
          CheckSettles(c.env, world, acct, password, pattern, want, false);
          verified := true;
          ok := AlignGrants(acct, pattern, want, Some(login.grants));
          if ok {
            SettledManaged(c.env, world.accounts, acct, password, pattern, want);
          }
          return;
        }
        if login.LoginFailed? {
          return;
        }
      }
      RekeyManages(c.env, world, acct, password, pattern, want);
      created, ok := SetPassword(acct, password);
      if !ok {
        return;
      }
      ok := AlignGrants(acct, pattern, want, if created then Some(NOTHING) else None);
      if !ok || !fromSecret {
        return;
      }
      created, verified, ok := Verify(acct, password, pattern, want, created, old(faults));
      if ok && verified {
        SettledManaged(c.env, world.accounts, acct, password, pattern, want);
      }
    }

    /** Up to five logins: other nodes of a cluster may lag behind. */
    method Verify(acct: Account, password: string, pattern: string, want: seq<string>, createdBefore: bool, ghost before: nat)
      returns (created: bool, verified: bool, ok: bool)
      requires ValidEnv(c.env) && before <= faults
      modifies this`world, this`faults
      ensures faults >= old(faults) && created == createdBefore
      ensures faults == before ==>
                Ensured(world, created, verified, ok) == Check(c.env, old(world), acct, password, pattern, want, created)
      ensures ok && verified ==> Settled(c.env, world.accounts, acct, password, pattern, want)
      ensures ok && !verified ==> world == old(world)
      ensures OthersKept(old(world).accounts, world.accounts, acct)
      ensures acct in old(world).accounts ==> acct in world.accounts
    {
      created, verified, ok := createdBefore, false, false;
      CheckSettles(c.env, world, acct, password, pattern, want, created);
      var attempt := 1;
      while true
        invariant 1 <= attempt <= VERIFY_ATTEMPTS && world == old(world) && faults >= old(faults) && !ok && !verified
        invariant attempt > 1 && faults == before ==> MysqlAccounts.Login(c.env, world.accounts, acct, password, pattern).Denied?
        invariant created == createdBefore
        decreases VERIFY_ATTEMPTS - attempt
      {
        var login := Login(acct, password, pattern);
        if login.LoggedIn? {
          verified := true;
          ok := AlignGrants(acct, pattern, want, Some(login.grants));
          return;
        }
        if login.Shadowed? {
          ok := true;
          return;
        }
        if !login.Denied? || attempt == VERIFY_ATTEMPTS {
          return;
        }
        // The caller's context may end while waiting.
        var ended := *;
        if ended {
          faults := faults + 1;
          return;
        }
        attempt := attempt + 1;
      }
    }

    /** Whatever calls fail: a granted answer means the account holds the answered
        password and the role's part of the managed privileges, and the cache
        holds nothing that is not so. */
    method GrantPass(op: Op) returns (answer: Answer)
      requires Valid() && op.Grant? && Proper(op, userHost, used)
      modifies this
      ensures Valid() && faults >= old(faults)
      ensures faults == old(faults) ==> (Value(), answer) == Step(c, old(Value()), op)
      ensures answer.Granted? ==>
                && RolePrivileges(op.role).Some?
                && answer.principal == Principal(op.acct) && answer.password == PasswordOf(op)
                && ManagedAccount(world.accounts, op.acct, answer.password, op.pattern, RolePrivileges(op.role).value)
      ensures RolePrivileges(op.role).None? <==> answer.RoleRefused?
      ensures answer.BadPassword? <==> RolePrivileges(op.role).Some? && op.stored != "" && !c.env.fine(op.stored)
      ensures answer.BadPassword? ==> world == old(world)
      ensures answer.RoleRefused? && faults == old(faults) ==> op.acct !in world.accounts
      ensures OthersKept(old(world).accounts, world.accounts, op.acct)
      // only a refused role, or the failure of the pass that created it, drops the account
      ensures op.acct in old(world).accounts && !answer.RoleRefused? ==> op.acct in world.accounts
    {
      var acct, role := op.acct, RolePrivileges(op.role);
      ghost var was := Value();
      if role.None? {
        seen := seen - {Principal(acct)};
        var _ := Exec(DropUser(acct));
        OthersBacked(c, userHost, used, was.world.accounts, world.accounts, was.seen, acct);
        return RoleRefused;
      }
      var want, password, fromSecret := role.value, op.stored, true;
      RoleNames(want);
      if password == "" {
        fromSecret, password := false, op.generated;
      } else if !c.env.fine(password) {
        return BadPassword;
      }
      var key := VerifyKey(c.hash, acct, op.pattern, want, password);
      if fromSecret && Fresh(seen, acct, key, op.now, c.interval) {
        HitAsChecked(c, userHost, used, was, op);
        EnsureExact(c.env, world, acct, password, true, op.pattern, want);
        return Granted(Principal(acct), password, false);
      }
      var created, verified, ok := EnsureAccount(acct, password, fromSecret, op.pattern, want);
      ghost var e := Ensured(world, created, verified, ok);
      if verified && ok {
        seen := seen[Principal(acct) := Verification(key, op.now)];
      } else {
        seen := seen - {Principal(acct)};
      }
      if !ok {
        if created {
          var _ := Exec(DropUser(acct));
        }
        OthersBacked(c, userHost, used, was.world.accounts, world.accounts, was.seen, acct);
        return GrantFailed;
      }
      GrantKeepsBacked(c, userHost, used, was, op, e);
      return Granted(Principal(acct), password, created);
    }

    /** The pass, and what its answer means for the role asked for. */
    method GrantAccess(op: Op) returns (answer: Answer)
      requires Valid() && op.Grant? && Proper(op, userHost, used)
      modifies this
      ensures Valid() && faults >= old(faults)
      ensures faults == old(faults) ==> (Value(), answer) == Step(c, old(Value()), op)
      ensures answer.Granted? ==>
                && RolePrivileges(op.role).Some?
                && answer.principal == Principal(op.acct) && answer.password == PasswordOf(op)
                && ManagedAccount(world.accounts, op.acct, answer.password, op.pattern, RolePrivileges(op.role).value)
      ensures op.role !in {"", "Reader", "ReadWrite"} <==> answer.RoleRefused?
      // a password unfit for a statement stops the pass before the server
      ensures answer.BadPassword? <==> op.role in {"", "Reader", "ReadWrite"} && op.stored != "" && !c.env.fine(op.stored)
      ensures answer.BadPassword? ==> world == old(world)
      ensures answer.Granted? ==> answer.password == if op.stored != "" then op.stored else op.generated
      ensures answer.RoleRefused? && faults == old(faults) ==> op.acct !in world.accounts
      // of the managed privileges a reader holds SELECT alone, the default role all
      ensures answer.Granted? ==>
        forall p <- {"SELECT", "INSERT", "UPDATE", "DELETE", "CREATE", "ALTER", "INDEX", "DROP", "REFERENCES",
                     "CREATE TEMPORARY TABLES", "LOCK TABLES", "CREATE VIEW", "SHOW VIEW"} ::
          p in GrantsOn(world.accounts, op.acct, op.pattern).privileges <==> (op.role == "Reader" ==> p == "SELECT")
      ensures OthersKept(old(world).accounts, world.accounts, op.acct)
      // only a refused role, or the failure of the pass that created it, drops the account
      ensures op.acct in old(world).accounts && !answer.RoleRefused? ==> op.acct in world.accounts
    {
      answer := GrantPass(op);
      RoleMeans(op.role, GrantsOn(world.accounts, op.acct, op.pattern));
    }

    /** Drops the account; an account that is not there is fine. */
    method RevokeAccess(acct: Account) returns (ok: bool)
      requires Valid() && Named(acct)
      modifies this
      ensures Valid() && faults >= old(faults)
      ensures faults == old(faults) ==> ok && Value() == Step(c, old(Value()), Drop(acct)).0
      ensures ok ==> acct !in world.accounts
      ensures Principal(acct) !in seen
      ensures OthersKept(old(world).accounts, world.accounts, acct)
    {
      ghost var was := Value();
      seen := seen - {Principal(acct)};
      var reply := Exec(DropUser(acct));
      if acct in world.accounts {
        SomeBacked(c, userHost, used, world.accounts, was.seen, acct);
      } else {
        OthersBacked(c, userHost, used, was.world.accounts, world.accounts, was.seen, acct);
      }
      return reply == Done;
    }
  }

  lemma SomeBacked(c: Settings, host: string, used: set<string>, a: Accounts, seen: Seen, acct: Account)
    requires Backed(c, host, used, a, seen)
    ensures Backed(c, host, used, a, seen - {Principal(acct)})
  {
    var rest := seen - {Principal(acct)};
    forall k | k in rest ensures EntryBacked(c, host, used, a, k, rest[k].key) {
      assert EntryBacked(c, host, used, a, k, seen[k].key);
    }
  }
}
