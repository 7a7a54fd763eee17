/** The cache of passed login checks: a run with it against the same run that
    checks on every pass. */
module VerifiedAccounts {
  import opened Wrappers
  import opened MysqlNames
  import opened MysqlAccounts

  datatype Verification = Verification(key: string, at: int)

  /** Per principal, the last check that passed. */
  type Seen = map<string, Verification>

  function Joined(parts: seq<string>, sep: char): string {
    if parts == [] then ""
    else if |parts| == 1 then parts[0]
    else parts[0] + [sep] + Joined(parts[1..], sep)
  }

  const NUL: char := '\0'

  function VerifyKey(hash: string -> string, acct: Account, pattern: string, want: seq<string>, password: string): string {
    Joined([Principal(acct), pattern, Joined(want, ','), hash(password)], NUL)
  }

  predicate Fresh(seen: Seen, acct: Account, key: string, now: int, interval: int) {
    interval > 0 && Principal(acct) in seen && seen[Principal(acct)].key == key && now - seen[Principal(acct)].at < interval
  }

  // ---- One call of the driver ----

  datatype Settings = Settings(env: Env, hash: string -> string, interval: int)

  datatype State = State(world: World, seen: Seen)

  /** `stored` is the Secret's password, empty when it has none. */
  datatype Op =
    | Grant(acct: Account, pattern: string, role: string, stored: string, generated: string, now: int)
    | Drop(acct: Account)
    | Outside(accounts: Accounts)

  datatype Answer =
    | Granted(principal: string, password: string, minted: bool) | RoleRefused | BadPassword | GrantFailed | Dropped | Nothing

  function Dropping(env: Env, w: World, acct: Account): World {
    Exec(env, w, DropUser(acct)).0
  }

  function KeyOf(c: Settings, op: Op): string
    requires op.Grant? && RolePrivileges(op.role).Some?
  {
    VerifyKey(c.hash, op.acct, op.pattern, RolePrivileges(op.role).value, op.stored)
  }

  /** The pass takes the account as converged without logging in. */
  predicate Hit(c: Settings, s: State, op: Op) {
    && Proceeds(c, op) && op.stored != ""
    && Fresh(s.seen, op.acct, KeyOf(c, op), op.now, c.interval)
  }

  function PasswordOf(op: Op): string
    requires op.Grant?
  {
    if op.stored != "" then op.stored else op.generated
  }

  function EnsureOf(env: Env, w: World, op: Op): Ensured
    requires op.Grant? && RolePrivileges(op.role).Some?
  {
    Ensure(env, w, op.acct, PasswordOf(op), op.stored != "", op.pattern, RolePrivileges(op.role).value)
  }

  /** A user created by a failed pass is dropped again: nothing records it. */
  function WorldAfter(env: Env, op: Op, e: Ensured): World
    requires op.Grant?
  {
    if !e.ok && e.created then Dropping(env, e.world, op.acct) else e.world
  }

  function AnswerOf(op: Op, e: Ensured): Answer
    requires op.Grant?
  {
    if e.ok then Granted(Principal(op.acct), PasswordOf(op), e.created) else GrantFailed
  }

  function SeenAfter(c: Settings, seen: Seen, op: Op, e: Ensured): Seen
    requires op.Grant? && RolePrivileges(op.role).Some?
  {
    if e.verified && e.ok then seen[Principal(op.acct) := Verification(KeyOf(c, op), op.now)] else seen - {Principal(op.acct)}
  }

  /** The pass gets as far as the account itself. */
  predicate Proceeds(c: Settings, op: Op) {
    op.Grant? && RolePrivileges(op.role).Some? && (op.stored == "" || c.env.fine(op.stored))
  }

  function Step(c: Settings, s: State, op: Op): (State, Answer) {
    match op
    case Drop(acct) => (State(Dropping(c.env, s.world, acct), s.seen - {Principal(acct)}), Dropped)
    case Outside(accounts) => (s.(world := s.world.(accounts := accounts)), Nothing)
    case Grant(acct, _, role, _, _, _) =>
      // A role without privileges holds nothing, also not what an earlier role left.
      if RolePrivileges(role).None? then
        (State(Dropping(c.env, s.world, acct), s.seen - {Principal(acct)}), RoleRefused)
      else if !Proceeds(c, op) then (s, BadPassword)
      else if Hit(c, s, op) then (s, Granted(Principal(acct), op.stored, false))
      else
        var e := EnsureOf(c.env, s.world, op);
        (State(WorldAfter(c.env, op, e), SeenAfter(c, s.seen, op, e)), AnswerOf(op, e))
  }

  function Run(c: Settings, s: State, ops: seq<Op>): (State, seq<Answer>)
    decreases |ops|
  {
    if ops == [] then (s, [])
    else
      var (next, answer) := Step(c, s, ops[0]);
      var (end, answers) := Run(c, next, ops[1..]);
      (end, [answer] + answers)
  }

  // ---- The key tells checks apart ----

  /** Names as the driver's checks let them through. */
  predicate Named(acct: Account) {
    (forall c <- acct.user :: NameChar(c)) && (forall c <- acct.host :: HostChar(c))
  }

  lemma PrincipalTellsApart(a: Account, b: Account)
    requires Named(a) && Named(b) && Principal(a) == Principal(b)
    ensures a == b
  {
    assert !NameChar('@');
    CutFirst(a.user, '@', a.host);
    CutFirst(b.user, '@', b.host);
  }

  lemma {:induction false} JoinedAvoids(parts: seq<string>, sep: char, c: char)
    requires c != sep && forall p <- parts :: c !in p
    ensures c !in Joined(parts, sep)
  {
    if |parts| > 1 {
      JoinedAvoids(parts[1..], sep, c);
    }
  }

  predicate IsRole(want: seq<string>) {
    want == READER || want == READ_WRITE
  }

  lemma RoleNames(want: seq<string>)
    requires IsRole(want)
    ensures (forall p <- want :: p in READ_WRITE) && NUL !in Joined(want, ',')
    ensures want == READ_WRITE <==> |Joined(want, ',')| > 6
  {
    RolesFine();
    assert forall p <- want :: p in READ_WRITE;
    JoinedAvoids(want, ',', NUL);
    if want == READ_WRITE {
      assert Joined(want, ',') == want[0] + [','] + Joined(want[1..], ',');
    }
  }

  lemma JoinedFour(a: string, b: string, c: string, d: string)
    ensures Joined([a, b, c, d], NUL) == a + [NUL] + (b + [NUL] + (c + [NUL] + d))
  {
    assert [a, b, c, d][1..] == [b, c, d];
    assert [b, c, d][1..] == [c, d];
    assert [c, d][1..] == [d];
    assert Joined([c, d], NUL) == c + [NUL] + d;
    assert Joined([b, c, d], NUL) == b + [NUL] + Joined([c, d], NUL);
    assert b + [NUL] + (c + [NUL] + d) == b + [NUL] + Joined([c, d], NUL);
  }

  lemma KeyTellsApart(
      hash: string -> string, acct: Account, pattern: string, want: seq<string>, password: string,
      pattern': string, want': seq<string>, password': string)
    requires NUL !in Principal(acct) && NUL !in pattern && NUL !in pattern' && IsRole(want) && IsRole(want')
    requires VerifyKey(hash, acct, pattern, want, password) == VerifyKey(hash, acct, pattern', want', password')
    ensures pattern == pattern' && want == want' && hash(password) == hash(password')
  {
    RoleNames(want);
    RoleNames(want');
    var p, w, w' := Principal(acct), Joined(want, ','), Joined(want', ',');
    JoinedFour(p, pattern, w, hash(password));
    JoinedFour(p, pattern', w', hash(password'));
    CutFirst(p, NUL, pattern + [NUL] + (w + [NUL] + hash(password)));
    CutFirst(p, NUL, pattern' + [NUL] + (w' + [NUL] + hash(password')));
    CutFirst(pattern, NUL, w + [NUL] + hash(password));
    CutFirst(pattern', NUL, w' + [NUL] + hash(password'));
    CutFirst(w, NUL, hash(password));
    CutFirst(w', NUL, hash(password'));
  }

  // ---- What the cache holds is true of the server ----

  datatype Backing = Backing(acct: Account, pattern: string, want: seq<string>, password: string)

  /** What an entry stands for, and that the server account is just that. */
  ghost predicate Backs(c: Settings, host: string, used: set<string>, a: Accounts, k: string, key: string, b: Backing) {
    && Named(b.acct) && b.acct.host == host && NUL !in b.pattern && IsRole(b.want) && b.password in used
    && k == Principal(b.acct) && key == VerifyKey(c.hash, b.acct, b.pattern, b.want, b.password)
    && Settled(c.env, a, b.acct, b.password, b.pattern, b.want)
  }

  ghost predicate EntryBacked(c: Settings, host: string, used: set<string>, a: Accounts, k: string, key: string) {
    exists b: Backing :: Backs(c, host, used, a, k, key, b)
  }

  ghost predicate Backed(c: Settings, host: string, used: set<string>, a: Accounts, seen: Seen) {
    forall k | k in seen :: EntryBacked(c, host, used, a, k, seen[k].key)
  }

  /** An operation of this driver: grants under its own userHost, and the hash
      tells the passwords in use apart. */
  ghost predicate Proper(op: Op, host: string, used: set<string>) {
    match op
    case Grant(acct, pattern, _, stored, generated, _) =>
      Named(acct) && acct.host == host && NUL !in pattern && stored in used && generated in used
    case Drop(acct) => Named(acct)
    case Outside(_) => false
  }

  ghost predicate Separates(hash: string -> string, used: set<string>) {
    forall p, q | p in used && q in used && hash(p) == hash(q) :: p == q
  }

  lemma {:induction false} LandingUntouched(order: seq<string>, a: Accounts, b: Accounts, acct: Account, other: Account)
    requires OthersKept(a, b, acct) && other != acct
    requires acct.user != other.user || acct !in b
    requires Landing(order, a, other.user) == Some(other)
    ensures Landing(order, b, other.user) == Some(other)
  {
    if order != [] {
      var head := Account(other.user, order[0]);
      assert head != acct ==> (head in a <==> head in a - {acct}) && (head in b <==> head in b - {acct});
      if head !in a {
        LandingUntouched(order[1..], a, b, acct, other);
      } else if head == acct {
        LandsInsideOnly(order, a, other.user);
      }
    }
  }

  lemma LandsInsideOnly(order: seq<string>, a: Accounts, user: string)
    requires order != [] && Account(user, order[0]) in a
    ensures Landing(order, a, user) == Some(Account(user, order[0]))
  {
  }

  lemma OtherBacks(c: Settings, host: string, used: set<string>, a: Accounts, b: Accounts, k: string, key: string,
                   acct: Account, x: Backing)
    requires Backs(c, host, used, a, k, key, x) && OthersKept(a, b, acct) && x.acct != acct
    requires acct.host == host || acct !in b
    ensures Backs(c, host, used, b, k, key, x)
  {
    assert x.acct in b - {acct} && (b - {acct})[x.acct] == (a - {acct})[x.acct];
    LandingUntouched(c.env.order, a, b, acct, x.acct);
  }

  /** Entries of other accounts stay true whatever a call does to acct. */
  lemma OthersBacked(c: Settings, host: string, used: set<string>, a: Accounts, b: Accounts, seen: Seen, acct: Account)
    requires Backed(c, host, used, a, seen) && OthersKept(a, b, acct)
    requires acct.host == host || acct !in b
    ensures Backed(c, host, used, b, seen - {Principal(acct)})
  {
    var rest := seen - {Principal(acct)};
    forall k | k in rest ensures EntryBacked(c, host, used, b, k, rest[k].key) {
      assert EntryBacked(c, host, used, a, k, seen[k].key);
      var x: Backing :| Backs(c, host, used, a, k, seen[k].key, x);
      OtherBacks(c, host, used, a, b, k, seen[k].key, acct, x);
    }
  }

  lemma StepBacked(c: Settings, host: string, used: set<string>, s: State, op: Op)
    requires ValidEnv(c.env) && Backed(c, host, used, s.world.accounts, s.seen) && Proper(op, host, used)
    ensures var next := Step(c, s, op).0; Backed(c, host, used, next.world.accounts, next.seen)
  {
    var a := s.world.accounts;
    match op {
      case Drop(acct) => OthersBacked(c, host, used, a, Dropping(c.env, s.world, acct).accounts, s.seen, acct);
      case Grant(acct, _, role, _, _, _) =>
        if RolePrivileges(role).None? {
          OthersBacked(c, host, used, a, Dropping(c.env, s.world, acct).accounts, s.seen, acct);
        } else if Proceeds(c, op) && !Hit(c, s, op) {
          GrantBacked(c, host, used, s, op);
        }
    }
  }

  lemma GrantBacked(c: Settings, host: string, used: set<string>, s: State, op: Op)
    requires ValidEnv(c.env) && Backed(c, host, used, s.world.accounts, s.seen) && Proper(op, host, used)
    requires Proceeds(c, op)
    ensures
      var e := EnsureOf(c.env, s.world, op);
      Backed(c, host, used, WorldAfter(c.env, op, e).accounts, SeenAfter(c, s.seen, op, e))
  {
    var want, k := RolePrivileges(op.role).value, Principal(op.acct);
    var e := Ensure(c.env, s.world, op.acct, PasswordOf(op), op.stored != "", op.pattern, want);
    RoleNames(want);
    EnsureExact(c.env, s.world, op.acct, PasswordOf(op), op.stored != "", op.pattern, want);
    GrantKeepsBacked(c, host, used, s, op, e);
  }

  lemma GrantKeepsBacked(c: Settings, host: string, used: set<string>, s: State, op: Op, e: Ensured)
    requires Backed(c, host, used, s.world.accounts, s.seen) && Proper(op, host, used) && Proceeds(c, op)
    requires OthersKept(s.world.accounts, e.world.accounts, op.acct)
    requires e.verified && e.ok ==>
               op.stored != "" && Settled(c.env, e.world.accounts, op.acct, op.stored, op.pattern, RolePrivileges(op.role).value)
    ensures Backed(c, host, used, WorldAfter(c.env, op, e).accounts, SeenAfter(c, s.seen, op, e))
  {
    var b, seen, k := WorldAfter(c.env, op, e).accounts, SeenAfter(c, s.seen, op, e), Principal(op.acct);
    assert OthersKept(s.world.accounts, b, op.acct);
    OthersBacked(c, host, used, s.world.accounts, b, s.seen, op.acct);
    forall k' | k' in seen ensures EntryBacked(c, host, used, b, k', seen[k'].key) {
      if k' == k {
        assert Backs(c, host, used, b, k, KeyOf(c, op), Backing(op.acct, op.pattern, RolePrivileges(op.role).value, op.stored));
      } else {
        assert k' in s.seen - {k} && seen[k'] == (s.seen - {k})[k'];
      }
    }
  }

  /** A pass that fails leaves no user behind that was not there before: nothing
      would record it. */
  lemma FailureLeavesNoUser(c: Settings, s: State, op: Op)
    requires ValidEnv(c.env) && op.Grant? && op.acct !in s.world.accounts && !Step(c, s, op).1.Granted?
    ensures op.acct !in Step(c, s, op).0.world.accounts
  {
    if Proceeds(c, op) && !Hit(c, s, op) {
      var want, fromSecret := RolePrivileges(op.role).value, op.stored != "";
      RoleNames(want);
      LandsInside(c.env.order, s.world.accounts, op.acct.user);
      RekeyManages(c.env, s.world, op.acct, PasswordOf(op), op.pattern, want);
      var r := Rekey(c.env, s.world, op.acct, PasswordOf(op), op.pattern, want);
      CheckSettles(c.env, r.world, op.acct, PasswordOf(op), op.pattern, want, r.created);
    }
  }

  function Always(c: Settings): Settings {
    c.(interval := 0)
  }

  /** A pass that hits answers and leaves the server as the check would have. */
  lemma HitAsChecked(c: Settings, host: string, used: set<string>, s: State, op: Op)
    requires ValidEnv(c.env) && Backed(c, host, used, s.world.accounts, s.seen) && Proper(op, host, used)
    requires Separates(c.hash, used) && Hit(c, s, op)
    ensures EnsureOf(c.env, s.world, op) == Ensured(s.world, false, true, true)
  {
    var k, want := Principal(op.acct), RolePrivileges(op.role).value;
    assert EntryBacked(c, host, used, s.world.accounts, k, s.seen[k].key);
    var x: Backing :| Backs(c, host, used, s.world.accounts, k, s.seen[k].key, x);
    PrincipalTellsApart(x.acct, op.acct);
    NoNul(op.acct);
    KeyTellsApart(c.hash, op.acct, op.pattern, want, op.stored, x.pattern, x.want, x.password);
    SettledSilent(c.env, s.world, op.acct, op.stored, op.pattern, want);
  }

  /** A check that passed spares the next ones: the same grant asked for again, with
      the Secret's password and less than the interval later, issues no statement. */
  lemma RepeatSpared(c: Settings, s: State, op: Op, later: int)
    requires op.Grant? && op.role in {"", "Reader", "ReadWrite"} && op.stored != "" && c.env.fine(op.stored)
    requires later - op.now < c.interval && c.interval > 0
    requires Ensure(c.env, s.world, op.acct, op.stored, true, op.pattern, RolePrivileges(op.role).value).verified
    requires Step(c, s, op).1.Granted? && !Hit(c, s, op)
    ensures
      var next := Step(c, s, op).0;
      Step(c, next, op.(now := later)) == (next, Granted(Principal(op.acct), op.stored, false))
  {
    RoleMeans(op.role, NOTHING);
  }

  lemma NoNul(acct: Account)
    requires Named(acct)
    ensures NUL !in Principal(acct)
  {
    assert !NameChar(NUL) && !HostChar(NUL);
  }

  lemma StepTransparent(c: Settings, host: string, used: set<string>, s: State, s': State, op: Op)
    requires ValidEnv(c.env) && Backed(c, host, used, s.world.accounts, s.seen) && Proper(op, host, used)
    requires Separates(c.hash, used) && s.world == s'.world
    ensures
      var (next, answer) := Step(c, s, op);
      var (next', answer') := Step(Always(c), s', op);
      answer == answer' && next.world == next'.world
  {
    if Hit(c, s, op) {
      HitAsChecked(c, host, used, s, op);
    }
  }

  /** With no change from outside, a run with the cache gives the same answers and
      issues the same statements as the run that checks on every pass. */
  lemma {:induction false} CacheTransparent(c: Settings, host: string, used: set<string>, s: State, s': State, ops: seq<Op>)
    requires ValidEnv(c.env) && Backed(c, host, used, s.world.accounts, s.seen)
    requires Separates(c.hash, used) && s.world == s'.world
    requires forall i | 0 <= i < |ops| :: Proper(ops[i], host, used)
    ensures
      var (end, answers) := Run(c, s, ops);
      var (end', answers') := Run(Always(c), s', ops);
      answers == answers' && end.world == end'.world && Backed(c, host, used, end.world.accounts, end.seen)
    decreases |ops|
  {
    if ops != [] {
      StepTransparent(c, host, used, s, s', ops[0]);
      StepBacked(c, host, used, s, ops[0]);
      CacheTransparent(c, host, used, Step(c, s, ops[0]).0, Step(Always(c), s', ops[0]).0, ops[1..]);
    }
  }

  // ---- How old a hit can be ----

  /** The state before operation n. */
  function StateAt(c: Settings, s: State, ops: seq<Op>, n: nat): State
    requires n <= |ops|
  {
    if n == 0 then s else Step(c, StateAt(c, s, ops, n - 1), ops[n - 1]).0
  }

  /** The pass logged in, and its check passed. */
  predicate Checked(c: Settings, s: State, op: Op) {
    Proceeds(c, op) && !Hit(c, s, op) && EnsureOf(c.env, s.world, op).verified && EnsureOf(c.env, s.world, op).ok
  }

  ghost predicate CheckedAt(c: Settings, s: State, ops: seq<Op>, m: nat, k: string, v: Verification)
    requires m < |ops|
  {
    && Checked(c, StateAt(c, s, ops, m), ops[m])
    && Principal(ops[m].acct) == k && v == Verification(KeyOf(c, ops[m]), ops[m].now)
  }

  ghost predicate CheckedBefore(c: Settings, s: State, ops: seq<Op>, n: nat, k: string, v: Verification)
    requires n <= |ops|
  {
    exists m: nat | m < n :: CheckedAt(c, s, ops, m, k, v)
  }

  /** A step adds an entry only by a check, and never changes another. */
  lemma StepEntries(c: Settings, s: State, op: Op, k: string)
    requires k in Step(c, s, op).0.seen
    ensures
      var v := Step(c, s, op).0.seen[k];
      || (k in s.seen && s.seen[k] == v)
      || (Checked(c, s, op) && Principal(op.acct) == k && v == Verification(KeyOf(c, op), op.now))
  {
  }

  /** Whatever happens to the server in between, each entry is that of a real
      check, at the time of that check. */
  lemma {:induction false} EntriesAreChecks(c: Settings, s: State, ops: seq<Op>, n: nat, k: string)
    requires s.seen == map[] && n <= |ops| && k in StateAt(c, s, ops, n).seen
    ensures CheckedBefore(c, s, ops, n, k, StateAt(c, s, ops, n).seen[k])
  {
    if n > 0 {
      var before := StateAt(c, s, ops, n - 1);
      var v := StateAt(c, s, ops, n).seen[k];
      StepEntries(c, before, ops[n - 1], k);
      if k in before.seen && before.seen[k] == v {
        EntriesAreChecks(c, s, ops, n - 1, k);
      } else {
        assert CheckedAt(c, s, ops, n - 1, k, v);
      }
    }
  }

  lemma HitEntry(c: Settings, s: State, op: Op)
    requires Hit(c, s, op)
    ensures
      var k := Principal(op.acct);
      k in s.seen && s.seen[k].key == KeyOf(c, op) && op.now - s.seen[k].at < c.interval
  {
  }

  /** Hits never refresh: a hit at time t stands on a real check of the same
      account, pattern, role and password after t - interval.  So a change made
      from outside by operation j at time `when` is looked for by a real check
      before any pass that comes an interval later may hit. */
  lemma OutsideChangeSeen(c: Settings, s: State, ops: seq<Op>, j: nat, when: int, n: nat)
    requires s.seen == map[] && j < n < |ops| && ops[n].Grant? && ops[n].now >= when + c.interval
    requires forall i | 0 <= i <= j :: ops[i].Grant? ==> ops[i].now <= when
    requires Hit(c, StateAt(c, s, ops, n), ops[n])
    ensures exists m: nat, v: Verification | j < m < n ::
              CheckedAt(c, s, ops, m, Principal(ops[n].acct), v) && v.key == KeyOf(c, ops[n]) && v.at > ops[n].now - c.interval
  {
    var k := Principal(ops[n].acct);
    HitEntry(c, StateAt(c, s, ops, n), ops[n]);
    var v := StateAt(c, s, ops, n).seen[k];
    EntriesAreChecks(c, s, ops, n, k);
    CheckIsLate(c, s, ops, j, when, n, k, v);
  }

  lemma CheckIsLate(c: Settings, s: State, ops: seq<Op>, j: nat, when: int, n: nat, k: string, v: Verification)
    requires j < n < |ops| && v.at > when && CheckedBefore(c, s, ops, n, k, v)
    requires forall i | 0 <= i <= j :: ops[i].Grant? ==> ops[i].now <= when
    ensures exists m: nat | j < m < n :: CheckedAt(c, s, ops, m, k, v)
  {
    var m: nat :| m < n && CheckedAt(c, s, ops, m, k, v);
    assert ops[m].Grant? && ops[m].now == v.at;
  }
}
