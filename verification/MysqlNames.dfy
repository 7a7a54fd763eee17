/** Account names, principals and identifier escaping of the mysql driver. */
module MysqlNames {
  import opened Wrappers

  const MAX_USER := 32
  const MAX_HOST := 255
  const MAX_PREFIX := 10
  const HASH := 16

  const SYSTEM_NAMES: seq<string> := [
    "mysql", "information_schema", "performance_schema", "sys", "root", "mariadb.sys", "mysql.sys",
    "mysql.session", "mysql.infoschema", "public", "healthcheck"]

  // ---- Character classes ----

  predicate Alnum(c: char) {
    'a' <= c <= 'z' || '0' <= c <= '9'
  }

  predicate NameChar(c: char) {
    Alnum(c) || c == '_' || c == '-'
  }

  predicate HostChar(c: char) {
    Alnum(c) || c in ".%_:/-"
  }

  /** A namespace or name usable verbatim in a user name. */
  predicate PlainPart(s: string) {
    s != [] && forall c <- s :: Alnum(c) || c == '-'
  }

  /** A Kubernetes namespace or name. */
  predicate KubernetesPart(s: string) {
    s != [] && forall c <- s :: Alnum(c) || c == '-' || c == '.'
  }

  // ---- Checks ----

  predicate CheckPrefix(p: string) {
    && 2 <= |p| <= MAX_PREFIX
    && 'a' <= p[0] <= 'z'
    && (forall i | 1 <= i < |p| - 1 :: Alnum(p[i]))
    && p[|p| - 1] == '_'
    && (forall s <- SYSTEM_NAMES :: !(p <= s))
  }

  predicate CheckHost(h: string) {
    0 < |h| <= MAX_HOST && forall c <- h :: HostChar(c)
  }

  datatype Refusal =
    | OutsidePrefix | OnlyPrefix | TooLong | BadCharacter | Reserved | OwnAccount | NoNames | NotUserAtHost | BadHost

  /** The prefix boundary, checked in this order. */
  function CheckManaged(p: string, name: string, maxLen: nat): Option<Refusal> {
    if !(p <= name) then Some(OutsidePrefix)
    else if |name| == |p| then Some(OnlyPrefix)
    else if |name| > maxLen then Some(TooLong)
    else if exists c <- name :: !NameChar(c) then Some(BadCharacter)
    else if name in SYSTEM_NAMES then Some(Reserved)
    else None
  }

  /** A backend's configuration, as validated at load. */
  datatype Config = Config(prefix: string, admin: string)

  predicate ValidConfig(cfg: Config) {
    CheckPrefix(cfg.prefix) && !(cfg.prefix <= cfg.admin)
  }

  function CheckUser(cfg: Config, name: string): Option<Refusal> {
    var managed := CheckManaged(cfg.prefix, name, MAX_USER);
    if managed.Some? then managed else if name == cfg.admin then Some(OwnAccount) else None
  }

  // ---- User names ----

  /** The start of the base32 form of sha256, over the alphabet of section 6 of
      RFC 4648 in lower case.  Nothing else is known of it. */
  type Digest = string -> string

  ghost predicate IsDigest(d: Digest) {
    forall s: string :: |d(s)| == HASH && forall c <- d(s) :: 'a' <= c <= 'z' || '2' <= c <= '7'
  }

  function Dashed(s: string): (r: string)
    ensures |r| == |s|
  {
    seq(|s|, i requires 0 <= i < |s| => if Alnum(s[i]) then s[i] else '-')
  }

  function Truncated(s: string, room: nat): string {
    if |s| > room then s[..room] else s
  }

  predicate UsesPlain(p: string, namespace: string, name: string) {
    PlainPart(namespace) && PlainPart(name) && |p| + |namespace| + 1 + |name| <= MAX_USER
  }

  function Readable(p: string, namespace: string, name: string): string
    requires |p| <= MAX_PREFIX
  {
    Truncated(Dashed(namespace + "-" + name), MAX_USER - |p| - 2 - HASH)
  }

  function UserName(cfg: Config, d: Digest, namespace: string, name: string): Result<string, Refusal>
    requires ValidConfig(cfg)
  {
    if namespace == "" || name == "" then Err(NoNames)
    else
      var u :=
        if UsesPlain(cfg.prefix, namespace, name) then cfg.prefix + namespace + "_" + name
        else cfg.prefix + Readable(cfg.prefix, namespace, name) + "__" + d(namespace + "/" + name);
      match CheckUser(cfg, u)
      case None => Ok(u)
      case Some(why) => Err(why)
  }

  // ---- Principals ----

  datatype Account = Account(user: string, host: string)

  function Principal(a: Account): string {
    a.user + "@" + a.host
  }

  /** strings.Cut: before and after the first separator. */
  function Cut(s: string, sep: char): Option<(string, string)> {
    if s == [] then None
    else if s[0] == sep then Some(([], s[1..]))
    else
      match Cut(s[1..], sep)
      case None => None
      case Some((before, after)) => Some(([s[0]] + before, after))
  }

  function ParsePrincipal(cfg: Config, principal: string): Result<Account, Refusal> {
    match Cut(principal, '@')
    case None => Err(NotUserAtHost)
    case Some((user, host)) =>
      var bad := CheckUser(cfg, user);
      if bad.Some? then Err(bad.value)
      else if !CheckHost(host) then Err(BadHost)
      else Ok(Account(user, host))
  }

  predicate Managed(cfg: Config, a: Account) {
    CheckUser(cfg, a.user).None? && CheckHost(a.host)
  }

  lemma {:induction false} CutFirst(before: string, sep: char, after: string)
    requires sep !in before
    ensures Cut(before + [sep] + after, sep) == Some((before, after))
  {
    var s := before + [sep] + after;
    if before == [] {
      assert s[1..] == after;
    } else {
      assert s[1..] == before[1..] + [sep] + after;
      CutFirst(before[1..], sep, after);
      assert [before[0]] + before[1..] == before;
    }
  }

  lemma {:induction false} CutJoins(s: string, sep: char)
    ensures match Cut(s, sep)
            case None => sep !in s
            case Some((before, after)) => sep !in before && before + [sep] + after == s
  {
    if s != [] && s[0] != sep {
      CutJoins(s[1..], sep);
      match Cut(s[1..], sep) {
        case None =>
        case Some((before, after)) =>
          assert s == [s[0]] + s[1..];
          assert [s[0]] + before + [sep] + after == [s[0]] + (before + [sep] + after);
      }
    }
  }

  /** The recorded principal of a managed account reads back as that account. */
  lemma PrincipalRoundTrip(cfg: Config, a: Account)
    requires Managed(cfg, a)
    ensures ParsePrincipal(cfg, Principal(a)) == Ok(a)
  {
    assert !NameChar('@');
    CutFirst(a.user, '@', a.host);
  }

  /** Only managed accounts are read, each from its own principal alone. */
  lemma ParsedIsManaged(cfg: Config, principal: string)
    ensures match ParsePrincipal(cfg, principal)
            case Ok(a) => Managed(cfg, a) && Principal(a) == principal
            case Err(_) => forall a: Account :: Principal(a) == principal ==> !Managed(cfg, a)
  {
    CutJoins(principal, '@');
    if ParsePrincipal(cfg, principal).Err? {
      forall a: Account | Principal(a) == principal ensures !Managed(cfg, a) {
        if Managed(cfg, a) {
          PrincipalRoundTrip(cfg, a);
        }
      }
    }
  }

  // ---- Derived names are valid ----

  lemma HashedChars(cfg: Config, d: Digest, namespace: string, name: string)
    requires ValidConfig(cfg) && IsDigest(d)
    ensures
      var r := Readable(cfg.prefix, namespace, name);
      (forall c <- r :: Alnum(c) || c == '-') && |cfg.prefix + r + "__" + d(namespace + "/" + name)| <= MAX_USER
  {
  }

  lemma PrefixChars(p: string)
    requires CheckPrefix(p)
    ensures forall c <- p :: NameChar(c)
  {
    forall i | 0 <= i < |p| ensures NameChar(p[i]) {
    }
  }

  lemma InsidePrefixFine(cfg: Config, rest: string)
    requires ValidConfig(cfg) && rest != [] && |cfg.prefix| + |rest| <= MAX_USER
    requires forall c <- rest :: NameChar(c)
    ensures CheckUser(cfg, cfg.prefix + rest).None?
  {
    PrefixChars(cfg.prefix);
    var u := cfg.prefix + rest;
    assert cfg.prefix <= u;
  }

  /** Under a validated configuration the prefix boundary alone keeps names off
      the system's and the controller's own account: the checks for those never
      have to refuse. */
  lemma BoundaryExactly(cfg: Config, name: string)
    requires ValidConfig(cfg)
    ensures CheckUser(cfg, name).None? <==>
            cfg.prefix < name && |name| <= 32 && forall c <- name :: 'a' <= c <= 'z' || '0' <= c <= '9' || c == '_' || c == '-'
    ensures CheckUser(cfg, name) !in {Some(Reserved), Some(OwnAccount)}
  {
    if cfg.prefix <= name {
      assert forall s <- SYSTEM_NAMES :: s != name;
    }
  }

  /** An account is one of the controller's exactly when its user is within that
      boundary and its host is a host pattern of at most 255 characters. */
  lemma ManagedExactly(cfg: Config, a: Account)
    requires ValidConfig(cfg)
    ensures Managed(cfg, a) <==>
      && cfg.prefix < a.user && |a.user| <= 32
      && (forall c <- a.user :: 'a' <= c <= 'z' || '0' <= c <= '9' || c == '_' || c == '-')
      && 0 < |a.host| <= 255
      && (forall c <- a.host :: 'a' <= c <= 'z' || '0' <= c <= '9' || c in {'.', '%', '_', ':', '/', '-'})
  {
    BoundaryExactly(cfg, a.user);
    assert forall c: char :: c in ".%_:/-" <==> c in {'.', '%', '_', ':', '/', '-'};
  }

  /** Every Kubernetes namespace and name has a user name, within the limit. */
  lemma UserNameTotal(cfg: Config, d: Digest, namespace: string, name: string)
    requires ValidConfig(cfg) && IsDigest(d) && KubernetesPart(namespace) && KubernetesPart(name)
    ensures
      var u := UserName(cfg, d, namespace, name);
      u.Ok? && |u.value| <= 32 && CheckUser(cfg, u.value).None?
    ensures UserName(cfg, d, namespace, name).value == cfg.prefix + Tail(cfg, d, namespace, name)
  {
    var p := cfg.prefix;
    if UsesPlain(p, namespace, name) {
      assert p + namespace + "_" + name == p + Tail(cfg, d, namespace, name);
    } else {
      HashedChars(cfg, d, namespace, name);
      assert p + Readable(p, namespace, name) + "__" + d(namespace + "/" + name) == p + Tail(cfg, d, namespace, name);
    }
    InsidePrefixFine(cfg, Tail(cfg, d, namespace, name));
  }

  /** A user name after the prefix. */
  function Tail(cfg: Config, d: Digest, namespace: string, name: string): string
    requires |cfg.prefix| <= MAX_PREFIX
  {
    if UsesPlain(cfg.prefix, namespace, name) then namespace + "_" + name
    else Readable(cfg.prefix, namespace, name) + "__" + d(namespace + "/" + name)
  }

  // ---- Two accesses share a user only through the digest ----

  /** The plain form has one underscore after the prefix, the hashed form two. */
  lemma FormsDisjoint(cfg: Config, d: Digest, ns1: string, n1: string, ns2: string, n2: string)
    requires ValidConfig(cfg) && IsDigest(d)
    requires UsesPlain(cfg.prefix, ns1, n1) && !UsesPlain(cfg.prefix, ns2, n2)
    ensures Tail(cfg, d, ns1, n1) != Tail(cfg, d, ns2, n2)
  {
    var s, t := Tail(cfg, d, ns1, n1), Tail(cfg, d, ns2, n2);
    var k := |Readable(cfg.prefix, ns2, n2)|;
    assert t[k] == '_' && t[k + 1] == '_';
    forall i | 0 <= i < |s| && i != |ns1| ensures s[i] != '_' {
      assert s[i] in ns1 || s[i] in n1;
    }
  }

  lemma UserNamesCollideExactly(cfg: Config, d: Digest, ns1: string, n1: string, ns2: string, n2: string)
    requires ValidConfig(cfg) && IsDigest(d)
    requires KubernetesPart(ns1) && KubernetesPart(n1) && KubernetesPart(ns2) && KubernetesPart(n2)
    ensures
      UserName(cfg, d, ns1, n1) == UserName(cfg, d, ns2, n2) <==>
      (ns1 == ns2 && n1 == n2) ||
      (&& !UsesPlain(cfg.prefix, ns1, n1) && !UsesPlain(cfg.prefix, ns2, n2)
       && d(ns1 + "/" + n1) == d(ns2 + "/" + n2)
       && Readable(cfg.prefix, ns1, n1) == Readable(cfg.prefix, ns2, n2))
  {
    UserNameTotal(cfg, d, ns1, n1);
    UserNameTotal(cfg, d, ns2, n2);
    var s, t := Tail(cfg, d, ns1, n1), Tail(cfg, d, ns2, n2);
    SamePrefix(cfg.prefix, s, t);
    if UsesPlain(cfg.prefix, ns1, n1) != UsesPlain(cfg.prefix, ns2, n2) {
      if UsesPlain(cfg.prefix, ns1, n1) {
        FormsDisjoint(cfg, d, ns1, n1, ns2, n2);
      } else {
        FormsDisjoint(cfg, d, ns2, n2, ns1, n1);
      }
    } else if s == t {
      if UsesPlain(cfg.prefix, ns1, n1) {
        CutFirst(ns1, '_', n1);
        CutFirst(ns2, '_', n2);
      } else {
        HashedSplit(Readable(cfg.prefix, ns1, n1), d(ns1 + "/" + n1), Readable(cfg.prefix, ns2, n2), d(ns2 + "/" + n2));
      }
    }
  }

  lemma SamePrefix(p: string, s: string, t: string)
    ensures p + s == p + t <==> s == t
  {
    assert (p + s)[|p|..] == s && (p + t)[|p|..] == t;
  }

  lemma HashedSplit(r: string, h: string, r': string, h': string)
    requires |h| == |h'| && r + "__" + h == r' + "__" + h'
    ensures r == r' && h == h'
  {
    var s := r + "__" + h;
    assert |r| == |r'|;
    assert r == s[..|r|] && r' == s[..|r|];
    assert h == s[|r| + 2..] && h' == s[|r| + 2..];
  }

  // ---- Escaping ----

  function Escaped(c: char): string {
    if c == '\\' || c == '_' || c == '%' then ['\\', c] else [c]
  }

  function GrantPattern(db: string): string {
    if db == [] then [] else Escaped(db[0]) + GrantPattern(db[1..])
  }

  /** LIKE: `_` is any one character, `%` any characters, backslash escapes. */
  predicate Like(pattern: string, s: string)
    decreases |pattern|, |s|
  {
    if pattern == [] then s == []
    else if pattern[0] == '%' then Like(pattern[1..], s) || (s != [] && Like(pattern, s[1..]))
    else if s == [] then false
    else if pattern[0] == '_' then Like(pattern[1..], s[1..])
    else if pattern[0] == '\\' && |pattern| > 1 then pattern[1] == s[0] && Like(pattern[2..], s[1..])
    else pattern[0] == s[0] && Like(pattern[1..], s[1..])
  }

  /** The escaped pattern of a database matches that database and nothing else. */
  lemma {:induction false} GrantPatternExact(db: string, s: string)
    ensures Like(GrantPattern(db), s) <==> s == db
  {
    if db != [] {
      var p := GrantPattern(db);
      assert p[|Escaped(db[0])|..] == GrantPattern(db[1..]);
      if s != [] {
        GrantPatternExact(db[1..], s[1..]);
        assert s == [s[0]] + s[1..] && db == [db[0]] + db[1..];
      }
    }
  }

  function Doubled(s: string): string {
    if s == [] then [] else (if s[0] == '`' then "``" else [s[0]]) + Doubled(s[1..])
  }

  function QuoteIdent(s: string): string {
    "`" + Doubled(s) + "`"
  }

  /** A quoted identifier up to its closing backtick, and what follows it. */
  function LexBody(t: string): Option<(string, string)>
    decreases |t|
  {
    if t == [] then None
    else if t[0] != '`' then
      (match LexBody(t[1..])
       case None => None
       case Some((name, rest)) => Some(([t[0]] + name, rest)))
    else if |t| > 1 && t[1] == '`' then
      (match LexBody(t[2..])
       case None => None
       case Some((name, rest)) => Some((['`'] + name, rest)))
    else Some(([], t[1..]))
  }

  function Lex(t: string): Option<(string, string)> {
    if t != [] && t[0] == '`' then LexBody(t[1..]) else None
  }

  lemma {:induction false} DoubledLexes(s: string, rest: string)
    requires rest == [] || rest[0] != '`'
    ensures LexBody(Doubled(s) + "`" + rest) == Some((s, rest))
  {
    var t := Doubled(s) + "`" + rest;
    if s == [] {
      assert t == "`" + rest;
      assert t[1..] == rest;
    } else {
      DoubledLexes(s[1..], rest);
      var tail := Doubled(s[1..]) + "`" + rest;
      assert s == [s[0]] + s[1..];
      if s[0] == '`' {
        assert t == "``" + tail;
        assert t[2..] == tail;
      } else {
        assert t == [s[0]] + tail;
        assert t[1..] == tail;
      }
    }
  }

  /** Any string, quoted, is read back as one identifier. */
  lemma QuotedLexes(s: string, rest: string)
    requires rest == [] || rest[0] != '`'
    ensures Lex(QuoteIdent(s) + rest) == Some((s, rest))
  {
    DoubledLexes(s, rest);
    assert (QuoteIdent(s) + rest)[1..] == Doubled(s) + "`" + rest;
  }

  /** GRANT ... ON `pattern`.* reaches the one database it is meant for. */
  lemma GrantReaches(db: string, tail: string, other: string)
    ensures
      var lexed := Lex(QuoteIdent(GrantPattern(db)) + ".*" + tail);
      lexed.Some? && lexed.value.1 == ".*" + tail && (Like(lexed.value.0, other) <==> other == db)
  {
    QuotedLexes(GrantPattern(db), ".*" + tail);
    assert QuoteIdent(GrantPattern(db)) + ".*" + tail == QuoteIdent(GrantPattern(db)) + (".*" + tail);
    GrantPatternExact(db, other);
  }
}
