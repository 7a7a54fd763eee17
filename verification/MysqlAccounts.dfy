/** Accounts of the mysql driver: one pass of GrantAccess against a server, and
    what it leaves there. */
module MysqlAccounts {
  import opened Wrappers
  import opened MysqlNames

  // ---- Roles ----

  const READER: seq<string> := ["SELECT"]

  const READ_WRITE: seq<string> := [
    "SELECT", "INSERT", "UPDATE", "DELETE", "CREATE", "ALTER", "INDEX", "DROP", "REFERENCES",
    "CREATE TEMPORARY TABLES", "LOCK TABLES", "CREATE VIEW", "SHOW VIEW"]

  function RolePrivileges(role: string): Option<seq<string>> {
    if role == "Reader" then Some(READER) else if role == "" || role == "ReadWrite" then Some(READ_WRITE) else None
  }

  /** The elements of a not in b, in a's order. */
  function Without(a: seq<string>, b: seq<string>): (r: seq<string>)
    ensures forall p :: p in r <==> p in a && p !in b
  {
    if a == [] then [] else (if a[0] in b then [] else [a[0]]) + Without(a[1..], b)
  }

  /** Upper-case words with single spaces between them. */
  predicate PrivilegeName(s: string) {
    && s != [] && s[0] != ' ' && s[|s| - 1] != ' '
    && forall i | 0 <= i < |s| :: 'A' <= s[i] <= 'Z' || (s[i] == ' ' && (i + 1 < |s| ==> s[i + 1] != ' '))
  }

  predicate Word(w: string) {
    w != [] && forall c <- w :: 'A' <= c <= 'Z'
  }

  predicate AllWords(words: seq<string>) {
    forall w <- words :: Word(w)
  }

  /** Words with single spaces between them. */
  function Spaced(words: seq<string>): string
    requires words != []
  {
    if |words| == 1 then words[0] else words[0] + " " + Spaced(words[1..])
  }

  lemma {:induction false} SpacedIsName(words: seq<string>)
    requires words != [] && AllWords(words)
    ensures PrivilegeName(Spaced(words))
    decreases |words|
  {
    var w := words[0];
    assert Word(w) && forall i | 0 <= i < |w| :: w[i] in w;
    if |words| > 1 {
      SpacedIsName(words[1..]);
      var s, rest := Spaced(words), Spaced(words[1..]);
      assert s == w + " " + rest;
      forall i | |w| < i < |s| ensures s[i] == rest[i - |w| - 1] {
      }
    }
  }

  lemma {:induction false} NameIsSpaced(s: string, i: nat) returns (words: seq<string>)
    requires PrivilegeName(s) && 0 < i <= |s| && forall j | 0 <= j < i :: s[j] != ' '
    ensures words != [] && AllWords(words) && Spaced(words) == s
    decreases |s|, |s| - i
  {
    if i == |s| {
      words := [s];
    } else if s[i] != ' ' {
      words := NameIsSpaced(s, i + 1);
    } else {
      var rest := s[i + 1..];
      assert PrivilegeName(rest) by {
        assert rest[0] == s[i + 1] && rest[|rest| - 1] == s[|s| - 1];
      }
      var others := NameIsSpaced(rest, 1);
      words := [s[..i]] + others;
      assert words[1..] == others && s == s[..i] + " " + rest;
    }
  }

  /** A name is fit for a statement exactly when it is upper-case words with single
      spaces between them: ^[A-Z]+( [A-Z]+)*$. */
  lemma PrivilegeNameExactly(s: string)
    ensures PrivilegeName(s) <==> exists words: seq<string> :: words != [] && AllWords(words) && Spaced(words) == s
  {
    if PrivilegeName(s) {
      var words := NameIsSpaced(s, 1);
    }
    if words: seq<string> :| words != [] && AllWords(words) && Spaced(words) == s {
      SpacedIsName(words);
    }
  }

  // ---- The server ----

  datatype Grants = Grants(privileges: seq<string>, option: bool)

  const NOTHING := Grants([], false)

  datatype Held = Held(password: string, grants: map<string, Grants>)

  type Accounts = map<Account, Held>

  datatype Statement =
    | CreateUser(acct: Account, password: string)
    | AlterUser(acct: Account, password: string)
    | DropUser(acct: Account)
    | Grant(acct: Account, pattern: string, privileges: seq<string>)
    | Revoke(acct: Account, pattern: string, privileges: seq<string>)
    | RevokeOption(acct: Account, pattern: string)

  datatype Reply = Done | CannotUser | NoSuchGrant | OtherError | Unreachable

  datatype LoginReply = LoggedIn(grants: Grants) | Denied | Shadowed | LoginFailed

  /** `refuses(held, privileges)`: whether the server turns down such a REVOKE.
      `order`: the hosts that admit the controller, most specific first. */
  datatype Env = Env(refuses: (seq<string>, seq<string>) -> bool, order: seq<string>, fine: string -> bool)

  /** A server may refuse a REVOKE only for a privilege that is not held. */
  ghost predicate ValidEnv(env: Env) {
    forall held, privileges :: env.refuses(held, privileges) ==> exists p <- privileges :: p !in held
  }

  function GrantsOn(a: Accounts, acct: Account, pattern: string): Grants {
    if acct in a && pattern in a[acct].grants then a[acct].grants[pattern] else NOTHING
  }

  function WithGrants(a: Accounts, acct: Account, pattern: string, g: Grants): Accounts
    requires acct in a
  {
    a[acct := a[acct].(grants := a[acct].grants[pattern := g])]
  }

  /** One statement; REVOKE is atomic. */
  function Apply(env: Env, a: Accounts, st: Statement): (Accounts, Reply) {
    match st
    case CreateUser(acct, password) => if acct in a then (a, CannotUser) else (a[acct := Held(password, map[])], Done)
    case AlterUser(acct, password) => if acct in a then (a[acct := a[acct].(password := password)], Done) else (a, CannotUser)
    case DropUser(acct) => (a - {acct}, Done)
    case Grant(acct, pattern, privileges) =>
      var g := GrantsOn(a, acct, pattern);
      if acct in a then
        (WithGrants(a, acct, pattern, g.(privileges := g.privileges + Without(privileges, g.privileges))), Done)
      else (a, OtherError)
    case Revoke(acct, pattern, privileges) =>
      var g := GrantsOn(a, acct, pattern);
      if acct !in a || env.refuses(g.privileges, privileges) then (a, NoSuchGrant)
      else (WithGrants(a, acct, pattern, g.(privileges := Without(g.privileges, privileges))), Done)
    case RevokeOption(acct, pattern) =>
      if acct in a then (WithGrants(a, acct, pattern, GrantsOn(a, acct, pattern).(option := false)), Done) else (a, NoSuchGrant)
  }

  /** The account a login as `user` is matched with. */
  function Landing(order: seq<string>, a: Accounts, user: string): Option<Account> {
    if order == [] then None
    else if Account(user, order[0]) in a then Some(Account(user, order[0]))
    else Landing(order[1..], a, user)
  }

  function Login(env: Env, a: Accounts, acct: Account, password: string, pattern: string): LoginReply {
    match Landing(env.order, a, acct.user)
    case None => Denied
    case Some(at) =>
      if at !in a || a[at].password != password then Denied
      else if at != acct then Shadowed
      else LoggedIn(GrantsOn(a, acct, pattern))
  }

  // ---- A pass without failed calls ----

  datatype World = World(accounts: Accounts, issued: seq<Statement>)

  function Exec(env: Env, w: World, st: Statement): (World, Reply) {
    var (a, reply) := Apply(env, w.accounts, st);
    (World(a, w.issued + [st]), reply)
  }

  function GrantAll(env: Env, w: World, acct: Account, pattern: string, privileges: seq<string>): (World, bool) {
    if privileges == [] then (w, true)
    else
      var (w', reply) := Exec(env, w, Grant(acct, pattern, privileges));
      (w', reply == Done)
  }

  function RevokeIfHeld(env: Env, w: World, acct: Account, pattern: string, privileges: seq<string>): (World, bool)
    decreases |privileges|
  {
    if privileges == [] then (w, true)
    else
      var (w', reply) := Exec(env, w, Revoke(acct, pattern, [privileges[0]]));
      if reply == Done || reply == NoSuchGrant then RevokeIfHeld(env, w', acct, pattern, privileges[1..]) else (w', false)
  }

  function RevokeExtra(env: Env, w: World, acct: Account, pattern: string, extra: seq<string>): (World, bool) {
    if extra == [] then (w, true)
    else if exists p <- extra :: !PrivilegeName(p) then (w, false)
    else
      var (w', reply) := Exec(env, w, Revoke(acct, pattern, extra));
      (w', reply == Done)
  }

  function DropOption(env: Env, w: World, acct: Account, pattern: string, option: bool): (World, bool) {
    if option then
      var (w', reply) := Exec(env, w, RevokeOption(acct, pattern));
      (w', reply == Done)
    else (w, true)
  }

  function Align(env: Env, w: World, acct: Account, pattern: string, want: seq<string>, have: Option<Grants>): (World, bool) {
    match have
    case None =>
      var (w1, ok) := GrantAll(env, w, acct, pattern, want);
      if ok then RevokeIfHeld(env, w1, acct, pattern, Without(READ_WRITE, want)) else (w1, false)
    case Some(h) =>
      var (w1, ok1) := GrantAll(env, w, acct, pattern, Without(want, h.privileges));
      if !ok1 then (w1, false) else
        var (w2, ok2) := RevokeExtra(env, w1, acct, pattern, Without(h.privileges, want));
        if !ok2 then (w2, false) else DropOption(env, w2, acct, pattern, h.option)
  }

  datatype Ensured = Ensured(world: World, created: bool, verified: bool, ok: bool)

  function SetPassword(env: Env, w: World, acct: Account, password: string): (World, bool, bool) {
    var (w1, reply) := Exec(env, w, CreateUser(acct, password));
    if reply == Done then (w1, true, true)
    else if reply != CannotUser then (w1, false, false)
    else
      var (w2, reply2) := Exec(env, w1, AlterUser(acct, password));
      (w2, false, reply2 == Done)
  }

  /** The check: a login with the password, then whatever its grants call for. */
  function Check(env: Env, w: World, acct: Account, password: string, pattern: string, want: seq<string>, created: bool): Ensured {
    match Login(env, w.accounts, acct, password, pattern)
    case LoggedIn(g) =>
      var (w', ok) := Align(env, w, acct, pattern, want, Some(g));
      Ensured(w', created, true, ok)
    case Shadowed => Ensured(w, created, false, true)
    case _ => Ensured(w, created, false, false)
  }

  /** The password set, and grants aligned that nobody has read. */
  function Rekey(env: Env, w: World, acct: Account, password: string, pattern: string, want: seq<string>): Ensured {
    var (w1, created, set_) := SetPassword(env, w, acct, password);
    if !set_ then Ensured(w1, false, false, false)
    else
      var (w2, ok) := Align(env, w1, acct, pattern, want, if created then Some(NOTHING) else None);
      Ensured(w2, created, false, ok)
  }

  function Ensure(env: Env, w: World, acct: Account, password: string, fromSecret: bool, pattern: string, want: seq<string>): Ensured {
    if fromSecret && Login(env, w.accounts, acct, password, pattern).LoggedIn? then
      Check(env, w, acct, password, pattern, want, false)
    else
      var r := Rekey(env, w, acct, password, pattern, want);
      if r.ok && fromSecret then Check(env, r.world, acct, password, pattern, want, r.created) else r
  }

  // ---- What a pass leaves ----

  /** Exactly the wanted privileges, and no grant option. */
  predicate Exact(g: Grants, want: seq<string>) {
    !g.option && (forall p <- g.privileges :: p in want) && (forall p <- want :: p in g.privileges)
  }

  /** Of the managed privileges exactly the wanted ones. */
  predicate ManagedExact(g: Grants, want: seq<string>) {
    forall p <- READ_WRITE :: p in g.privileges <==> p in want
  }

  /** What a role means for an account that is managed for it: of the managed
      privileges a reader holds SELECT alone, ReadWrite and the default role all.
      Any other role is refused, Writer among them. */
  lemma RoleMeans(role: string, g: Grants)
    ensures RolePrivileges(role).None? <==> role !in {"", "Reader", "ReadWrite"}
    ensures RolePrivileges(role).Some? && ManagedExact(g, RolePrivileges(role).value) ==>
      forall p <- {"SELECT", "INSERT", "UPDATE", "DELETE", "CREATE", "ALTER", "INDEX", "DROP", "REFERENCES",
                   "CREATE TEMPORARY TABLES", "LOCK TABLES", "CREATE VIEW", "SHOW VIEW"} ::
        p in g.privileges <==> (role == "Reader" ==> p == "SELECT")
  {
    assert forall i | 0 <= i < |READ_WRITE| :: READ_WRITE[i] in READ_WRITE;
    forall p <- {"SELECT", "INSERT", "UPDATE", "DELETE", "CREATE", "ALTER", "INDEX", "DROP", "REFERENCES",
                 "CREATE TEMPORARY TABLES", "LOCK TABLES", "CREATE VIEW", "SHOW VIEW"}
      ensures p in READ_WRITE
    {
    }
  }

  predicate ExactAccount(a: Accounts, acct: Account, password: string, pattern: string, want: seq<string>) {
    acct in a && a[acct].password == password && Exact(GrantsOn(a, acct, pattern), want)
  }

  /** Nothing but acct's own entry differs. */
  predicate OthersKept(a: Accounts, b: Accounts, acct: Account) {
    b - {acct} == a - {acct}
  }

  /** Nothing but acct's grants on the pattern differs. */
  predicate OnlyGrants(a: Accounts, b: Accounts, acct: Account, pattern: string) {
    && acct in a && acct in b && OthersKept(a, b, acct)
    && b[acct].password == a[acct].password && b[acct].grants - {pattern} == a[acct].grants - {pattern}
  }

  lemma WithGrantsOnly(a: Accounts, acct: Account, pattern: string, g: Grants)
    requires acct in a
    ensures
      var b := WithGrants(a, acct, pattern, g);
      OnlyGrants(a, b, acct, pattern) && GrantsOn(b, acct, pattern) == g
  {
  }

  lemma OnlyGrantsChain(a: Accounts, b: Accounts, c: Accounts, acct: Account, pattern: string)
    requires OnlyGrants(a, b, acct, pattern) && OnlyGrants(b, c, acct, pattern)
    ensures OnlyGrants(a, c, acct, pattern)
  {
  }

  lemma GrantAllGrants(env: Env, w: World, acct: Account, pattern: string, privileges: seq<string>)
    requires acct in w.accounts
    ensures
      var (w', ok) := GrantAll(env, w, acct, pattern, privileges);
      var g, g' := GrantsOn(w.accounts, acct, pattern), GrantsOn(w'.accounts, acct, pattern);
      && ok && OnlyGrants(w.accounts, w'.accounts, acct, pattern) && g'.option == g.option
      && forall p :: p in g'.privileges <==> p in g.privileges || p in privileges
  {
    var g := GrantsOn(w.accounts, acct, pattern);
    WithGrantsOnly(w.accounts, acct, pattern, g.(privileges := g.privileges + Without(privileges, g.privileges)));
  }

  lemma {:induction false} RevokeIfHeldRevokes(env: Env, w: World, acct: Account, pattern: string, privileges: seq<string>)
    requires ValidEnv(env) && acct in w.accounts
    ensures
      var (w', ok) := RevokeIfHeld(env, w, acct, pattern, privileges);
      var g, g' := GrantsOn(w.accounts, acct, pattern), GrantsOn(w'.accounts, acct, pattern);
      && ok && OnlyGrants(w.accounts, w'.accounts, acct, pattern) && g'.option == g.option
      && forall p :: p in g'.privileges <==> p in g.privileges && p !in privileges
    decreases |privileges|
  {
    if privileges != [] {
      var g := GrantsOn(w.accounts, acct, pattern);
      var w1 := Exec(env, w, Revoke(acct, pattern, [privileges[0]])).0;
      WithGrantsOnly(w.accounts, acct, pattern, g.(privileges := Without(g.privileges, [privileges[0]])));
      RevokeIfHeldRevokes(env, w1, acct, pattern, privileges[1..]);
    }
  }

  lemma RevokeExtraRevokes(env: Env, w: World, acct: Account, pattern: string, extra: seq<string>)
    requires ValidEnv(env) && acct in w.accounts && forall p <- extra :: p in GrantsOn(w.accounts, acct, pattern).privileges
    ensures
      var (w', ok) := RevokeExtra(env, w, acct, pattern, extra);
      var g, g' := GrantsOn(w.accounts, acct, pattern), GrantsOn(w'.accounts, acct, pattern);
      && (ok <==> forall p <- extra :: PrivilegeName(p))
      && OnlyGrants(w.accounts, w'.accounts, acct, pattern) && g'.option == g.option
      && (ok ==> forall p :: p in g'.privileges <==> p in g.privileges && p !in extra)
  {
    var g := GrantsOn(w.accounts, acct, pattern);
    WithGrantsOnly(w.accounts, acct, pattern, g.(privileges := Without(g.privileges, extra)));
  }

  predicate NamesFine(g: Grants) {
    forall p <- g.privileges :: PrivilegeName(p)
  }

  /** From grants read back: exactly the role's privileges, and no statement when
      they were that already. */
  lemma AlignKnown(env: Env, w: World, acct: Account, pattern: string, want: seq<string>)
    requires ValidEnv(env) && acct in w.accounts
    ensures
      var g := GrantsOn(w.accounts, acct, pattern);
      var (w', ok) := Align(env, w, acct, pattern, want, Some(g));
      && (NamesFine(g) ==> ok)
      && OnlyGrants(w.accounts, w'.accounts, acct, pattern)
      && (ok ==> Exact(GrantsOn(w'.accounts, acct, pattern), want))
      && (Exact(g, want) ==> ok && w' == w)
      && ((forall p <- want :: PrivilegeName(p)) ==>
            (ok <==> NamesFine(g)) && (NamesFine(GrantsOn(w'.accounts, acct, pattern)) <==> NamesFine(g)))
  {
    var g := GrantsOn(w.accounts, acct, pattern);
    var missing, extra := Without(want, g.privileges), Without(g.privileges, want);
    GrantAllGrants(env, w, acct, pattern, missing);
    var w1 := GrantAll(env, w, acct, pattern, missing).0;
    RevokeExtraRevokes(env, w1, acct, pattern, extra);
    var (w2, ok2) := RevokeExtra(env, w1, acct, pattern, extra);
    OnlyGrantsChain(w.accounts, w1.accounts, w2.accounts, acct, pattern);
    if ok2 && g.option {
      var g2 := GrantsOn(w2.accounts, acct, pattern);
      WithGrantsOnly(w2.accounts, acct, pattern, g2.(option := false));
      OnlyGrantsChain(w.accounts, w2.accounts, DropOption(env, w2, acct, pattern, true).0.accounts, acct, pattern);
    }
    HeadIsMember(missing);
    HeadIsMember(extra);
    if Exact(g, want) {
      assert missing == [] && extra == [];
    }
  }

  /** From grants nobody could read: the managed set is brought to exactly the
      role's privileges, anything else is left as it was. */
  lemma AlignUnknown(env: Env, w: World, acct: Account, pattern: string, want: seq<string>)
    requires ValidEnv(env) && acct in w.accounts && forall p <- want :: p in READ_WRITE
    ensures
      var g := GrantsOn(w.accounts, acct, pattern);
      var (w', ok) := Align(env, w, acct, pattern, want, None);
      var g' := GrantsOn(w'.accounts, acct, pattern);
      && ok && OnlyGrants(w.accounts, w'.accounts, acct, pattern) && g'.option == g.option
      && forall p :: p in g'.privileges <==> p in want || (p in g.privileges && p !in READ_WRITE)
  {
    GrantAllGrants(env, w, acct, pattern, want);
    var w1 := GrantAll(env, w, acct, pattern, want).0;
    RevokeIfHeldRevokes(env, w1, acct, pattern, Without(READ_WRITE, want));
    var w2 := RevokeIfHeld(env, w1, acct, pattern, Without(READ_WRITE, want)).0;
    OnlyGrantsChain(w.accounts, w1.accounts, w2.accounts, acct, pattern);
  }

  // ---- Whole passes ----

  /** Converged: exact, and a login as the user lands on this account. */
  predicate Settled(env: Env, a: Accounts, acct: Account, password: string, pattern: string, want: seq<string>) {
    ExactAccount(a, acct, password, pattern, want) && Landing(env.order, a, acct.user) == Some(acct)
  }

  lemma {:induction false} LandsInside(order: seq<string>, a: Accounts, user: string)
    ensures var l := Landing(order, a, user); l.Some? ==> l.value in a && l.value.user == user && l.value.host in order
  {
    if order != [] {
      LandsInside(order[1..], a, user);
    }
  }

  lemma {:induction false} LandingKept(order: seq<string>, a: Accounts, b: Accounts, user: string)
    requires a.Keys == b.Keys
    ensures Landing(order, a, user) == Landing(order, b, user)
  {
    if order != [] {
      LandingKept(order[1..], a, b, user);
    }
  }

  lemma SameKeys(a: Accounts, b: Accounts, acct: Account)
    requires OthersKept(a, b, acct) && acct in a && acct in b
    ensures a.Keys == b.Keys
  {
    assert forall x :: x in a && x != acct <==> x in a - {acct};
    assert forall x :: x in b && x != acct <==> x in b - {acct};
  }

  lemma SetPasswordSets(env: Env, w: World, acct: Account, password: string)
    ensures
      var (w', created, ok) := SetPassword(env, w, acct, password);
      && ok && (created <==> acct !in w.accounts) && OthersKept(w.accounts, w'.accounts, acct)
      && acct in w'.accounts && w'.accounts[acct].password == password
      && w'.accounts[acct].grants == if created then map[] else w.accounts[acct].grants
  {
  }

  predicate ManagedAccount(a: Accounts, acct: Account, password: string, pattern: string, want: seq<string>) {
    acct in a && a[acct].password == password && ManagedExact(GrantsOn(a, acct, pattern), want)
  }

  lemma ExactIsManaged(g: Grants, want: seq<string>)
    requires Exact(g, want)
    ensures ManagedExact(g, want)
  {
  }

  lemma RekeyManages(env: Env, w: World, acct: Account, password: string, pattern: string, want: seq<string>)
    requires ValidEnv(env) && forall p <- want :: p in READ_WRITE
    ensures
      var r := Rekey(env, w, acct, password, pattern, want);
      var a := r.world.accounts;
      && r.ok && (r.created <==> acct !in w.accounts) && OthersKept(w.accounts, a, acct)
      && ManagedAccount(a, acct, password, pattern, want)
      && (r.created ==> ExactAccount(a, acct, password, pattern, want))
      && (NamesFine(GrantsOn(w.accounts, acct, pattern)) <==> NamesFine(GrantsOn(a, acct, pattern)))
  {
    var (w1, created, set_) := SetPassword(env, w, acct, password);
    SetPasswordSets(env, w, acct, password);
    RolesFine();
    if created {
      assert GrantsOn(w1.accounts, acct, pattern) == NOTHING;
      AlignKnown(env, w1, acct, pattern, want);
      ExactIsManaged(GrantsOn(Align(env, w1, acct, pattern, want, Some(NOTHING)).0.accounts, acct, pattern), want);
    } else {
      AlignUnknown(env, w1, acct, pattern, want);
      assert GrantsOn(w1.accounts, acct, pattern) == GrantsOn(w.accounts, acct, pattern);
    }
  }

  /** A check that logs in leaves the account settled; any other leaves the server alone. */
  lemma CheckSettles(env: Env, w: World, acct: Account, password: string, pattern: string, want: seq<string>, created: bool)
    requires ValidEnv(env)
    ensures
      var login := Login(env, w.accounts, acct, password, pattern);
      var e := Check(env, w, acct, password, pattern, want, created);
      && OthersKept(w.accounts, e.world.accounts, acct) && e.created == created
      && (e.verified <==> login.LoggedIn?)
      && (!e.verified ==> e.world == w && (e.ok <==> login.Shadowed?))
      && (e.verified && e.ok ==> Settled(env, e.world.accounts, acct, password, pattern, want))
      && (e.verified && NamesFine(GrantsOn(w.accounts, acct, pattern)) ==> e.ok)
      && (e.verified ==> acct in w.accounts && acct in e.world.accounts && e.world.accounts[acct].password == password)
      && (e.verified ==> Login(env, e.world.accounts, acct, password, pattern).LoggedIn?)
      && ((forall p <- want :: PrivilegeName(p)) ==>
            && (e.verified ==> (e.ok <==> NamesFine(GrantsOn(w.accounts, acct, pattern))))
            && (NamesFine(GrantsOn(e.world.accounts, acct, pattern)) <==> NamesFine(GrantsOn(w.accounts, acct, pattern))))
  {
    if Login(env, w.accounts, acct, password, pattern).LoggedIn? {
      AlignKnown(env, w, acct, pattern, want);
      var w' := Align(env, w, acct, pattern, want, Some(GrantsOn(w.accounts, acct, pattern))).0;
      SameKeys(w.accounts, w'.accounts, acct);
      LandingKept(env.order, w.accounts, w'.accounts, acct.user);
    }
  }

  lemma SettledManaged(env: Env, a: Accounts, acct: Account, password: string, pattern: string, want: seq<string>)
    requires Settled(env, a, acct, password, pattern, want)
    ensures ManagedAccount(a, acct, password, pattern, want)
    ensures Login(env, a, acct, password, pattern).LoggedIn?
    ensures (forall p <- want :: p in READ_WRITE) ==> NamesFine(GrantsOn(a, acct, pattern))
  {
    RolesFine();
    ExactIsManaged(GrantsOn(a, acct, pattern), want);
  }

  /** From any server state: what every successful pass leaves.  A verified one
      leaves exactly the Secret's password and the role's privileges. */
  lemma EnsureExact(env: Env, w: World, acct: Account, password: string, fromSecret: bool, pattern: string, want: seq<string>)
    requires ValidEnv(env) && forall p <- want :: p in READ_WRITE
    ensures
      var e := Ensure(env, w, acct, password, fromSecret, pattern, want);
      var a := e.world.accounts;
      && OthersKept(w.accounts, a, acct)
      && acct in a && a[acct].password == password
      && (e.verified && e.ok ==> fromSecret && Settled(env, a, acct, password, pattern, want))
      && (e.ok ==> ManagedAccount(a, acct, password, pattern, want))
      && (e.ok && e.created ==> ExactAccount(a, acct, password, pattern, want))
  {
    if fromSecret && Login(env, w.accounts, acct, password, pattern).LoggedIn? {
      CheckSettles(env, w, acct, password, pattern, want, false);
    } else {
      RekeyManages(env, w, acct, password, pattern, want);
      var r := Rekey(env, w, acct, password, pattern, want);
      CheckSettles(env, r.world, acct, password, pattern, want, r.created);
    }
    var e := Ensure(env, w, acct, password, fromSecret, pattern, want);
    if e.verified && e.ok {
      SettledManaged(env, e.world.accounts, acct, password, pattern, want);
    }
  }

  /** From any server state, without failed calls: a pass that has to prove its
      password is verified exactly when it logs in afterwards; and it succeeds
      exactly when another account shadows the login, or it logs in and every
      privilege the account held has a name fit for a statement. */
  lemma EnsureSucceedsExactly(env: Env, w: World, acct: Account, password: string, fromSecret: bool, pattern: string, want: seq<string>)
    requires ValidEnv(env) && forall p <- want :: p in READ_WRITE
    ensures
      var e := Ensure(env, w, acct, password, fromSecret, pattern, want);
      var login := Login(env, e.world.accounts, acct, password, pattern);
      var fine := NamesFine(GrantsOn(w.accounts, acct, pattern));
      && (e.ok <==> !fromSecret || login.Shadowed? || (login.LoggedIn? && fine))
      && (e.verified <==> fromSecret && login.LoggedIn?)
      && (NamesFine(GrantsOn(e.world.accounts, acct, pattern)) <==> fine)
  {
    RolesFine();
    if fromSecret && Login(env, w.accounts, acct, password, pattern).LoggedIn? {
      CheckSettles(env, w, acct, password, pattern, want, false);
    } else {
      RekeyManages(env, w, acct, password, pattern, want);
      var r := Rekey(env, w, acct, password, pattern, want);
      if fromSecret {
        CheckSettles(env, r.world, acct, password, pattern, want, r.created);
      }
    }
  }

  /** On a settled account a pass from the Secret issues no statement. */
  lemma SettledSilent(env: Env, w: World, acct: Account, password: string, pattern: string, want: seq<string>)
    requires ValidEnv(env) && Settled(env, w.accounts, acct, password, pattern, want)
    ensures Ensure(env, w, acct, password, true, pattern, want) == Ensured(w, false, true, true)
  {
    AlignKnown(env, w, acct, pattern, want);
  }

  /** The account's host admits the controller, and none of the user's other
      accounts is more specific. */
  predicate Foremost(order: seq<string>, a: Accounts, acct: Account) {
    order != [] &&
    (Account(acct.user, order[0]) == acct || (Account(acct.user, order[0]) !in a && Foremost(order[1..], a, acct)))
  }

  /** That depends on the other accounts only, and is what makes logins land here. */
  lemma {:induction false} ForemostLands(order: seq<string>, a: Accounts, b: Accounts, acct: Account)
    requires OthersKept(a, b, acct) && acct in b
    ensures Foremost(order, a, acct) <==> Foremost(order, b, acct)
    ensures Foremost(order, a, acct) <==> Landing(order, b, acct.user) == Some(acct)
  {
    if order != [] {
      var head := Account(acct.user, order[0]);
      if head != acct {
        assert head in a <==> head in a - {acct};
        assert head in b <==> head in b - {acct};
        ForemostLands(order[1..], a, b, acct);
      }
    }
  }

  /** One pass against what decides whether the next ones can settle. */
  lemma PassKeepsChances(env: Env, w: World, acct: Account, password: string, fromSecret: bool, pattern: string, want: seq<string>)
    requires ValidEnv(env) && forall p <- want :: p in READ_WRITE
    ensures
      var e := Ensure(env, w, acct, password, fromSecret, pattern, want);
      var foremost := Foremost(env.order, w.accounts, acct);
      var fine := NamesFine(GrantsOn(w.accounts, acct, pattern));
      && (Foremost(env.order, e.world.accounts, acct) <==> foremost)
      && (NamesFine(GrantsOn(e.world.accounts, acct, pattern)) <==> fine)
      && (e.verified <==> fromSecret && foremost)
      && (foremost && fine ==> e.ok)
      && (e.verified && e.ok ==> fine && Settled(env, e.world.accounts, acct, password, pattern, want))
  {
    var e := Ensure(env, w, acct, password, fromSecret, pattern, want);
    EnsureExact(env, w, acct, password, fromSecret, pattern, want);
    EnsureSucceedsExactly(env, w, acct, password, fromSecret, pattern, want);
    ForemostLands(env.order, w.accounts, e.world.accounts, acct);
  }

  /** From any server state: two passes settle an account, the first with a
      generated password or one from the Secret, so that a third issues no
      statement, exactly when logins can land on it and its privileges have names
      fit for a statement. */
  lemma ThirdPassSilentExactly(env: Env, w: World, acct: Account, password: string, fromSecret: bool, pattern: string, want: seq<string>)
    requires ValidEnv(env) && forall p <- want :: p in READ_WRITE
    ensures
      var first := Ensure(env, w, acct, password, fromSecret, pattern, want);
      var second := Ensure(env, first.world, acct, password, true, pattern, want);
      var third := Ensure(env, second.world, acct, password, true, pattern, want);
      var able := Foremost(env.order, w.accounts, acct) && NamesFine(GrantsOn(w.accounts, acct, pattern));
      && (able <==> third == Ensured(second.world, false, true, true))
      && (able ==> first.ok && second.ok && second.verified)
  {
    var first := Ensure(env, w, acct, password, fromSecret, pattern, want);
    var second := Ensure(env, first.world, acct, password, true, pattern, want);
    PassKeepsChances(env, w, acct, password, fromSecret, pattern, want);
    PassKeepsChances(env, first.world, acct, password, true, pattern, want);
    PassKeepsChances(env, second.world, acct, password, true, pattern, want);
    if second.verified && second.ok {
      SettledSilent(env, second.world, acct, password, pattern, want);
    }
  }

  // ---- The roles' privilege names ----

  lemma DataNamesFine()
    ensures forall p <- ["SELECT", "INSERT", "UPDATE", "DELETE"] :: PrivilegeName(p)
  {
  }

  lemma SchemaNamesFine()
    ensures forall p <- ["CREATE", "ALTER", "INDEX", "DROP", "REFERENCES"] :: PrivilegeName(p)
  {
  }

  lemma LongNamesFine()
    ensures forall p <- ["CREATE TEMPORARY TABLES", "LOCK TABLES", "CREATE VIEW", "SHOW VIEW"] :: PrivilegeName(p)
  {
  }

  lemma RolesFine()
    ensures forall p <- READ_WRITE :: PrivilegeName(p)
  {
    DataNamesFine();
    SchemaNamesFine();
    LongNamesFine();
    assert READ_WRITE == ["SELECT", "INSERT", "UPDATE", "DELETE"] + ["CREATE", "ALTER", "INDEX", "DROP", "REFERENCES"]
                         + ["CREATE TEMPORARY TABLES", "LOCK TABLES", "CREATE VIEW", "SHOW VIEW"];
  }
}
