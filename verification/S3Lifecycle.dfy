/** Lifecycle rules of the S3 driver: translation of neutral rules, comparison of
    configurations, and their reconciliation. */
module S3Lifecycle {
  import opened Wrappers
  import opened ObjectStoreLifecycle
  import Decimal
  import Sorting

  /** A rule as the API holds it; pointers that may be nil are options. */
  datatype S3Rule = S3Rule(
    id: string, status: string, filter: Option<Option<string>>, prefix: Option<string>,
    expiration: Option<Option<int>>, abort: Option<Option<int>>, extra: Extra)

  /** What a rule can hold beside, and the driver neither writes nor compares: a
      narrower filter, and further actions. */
  datatype Extra = Extra(
    andPrefix: string,            // of a combined filter, "" when absent
    tags: set<string>,
    over: Option<nat>, under: Option<nat>,   // object sizes
    date: Option<int>,            // expiry on a day
    noncurrent: Option<Noncurrent>,
    moves: seq<Move>)

  /** Expiry of noncurrent versions: after so many days, with so many newer ones kept. */
  datatype Noncurrent = Noncurrent(days: int, newer: int)

  /** A transition to another storage class. */
  datatype Move = Move(days: nat, class_: string)

  const NO_EXTRA := Extra("", {}, None, None, None, None, [])

  /** What the comparison looks at; 0 days is no expiry or no abort. */
  datatype Normal = Normal(prefix: string, expiry: int, abort: int, status: string)

  function Prefix(r: S3Rule): string {
    if r.filter.Some? && r.filter.value.Some? then r.filter.value.value else if r.prefix.Some? then r.prefix.value else ""
  }

  function Days(d: Option<Option<int>>): int {
    if d.Some? && d.value.Some? then d.value.value else 0
  }

  function Normalised(r: S3Rule): Normal {
    Normal(Prefix(r), Days(r.expiration), Days(r.abort), r.status)
  }

  function NormalsOf(rules: seq<S3Rule>): seq<Normal> {
    seq(|rules|, i requires 0 <= i < |rules| => Normalised(rules[i]))
  }

  /** The same rules, whatever their ids and order. */
  predicate SameRules(a: seq<S3Rule>, b: seq<S3Rule>) {
    multiset(NormalsOf(a)) == multiset(NormalsOf(b))
  }

  // ---- What a configuration does ----

  /** x days are enough for a rule of that many days; 0 days is no rule. */
  predicate Reached(days: int, x: nat) {
    days != 0 && x >= days
  }

  /** The days of the normal form.  An expiry acts on current versions only. */
  predicate ByDays(n: Normal, action: Action, o: Subject) {
    match action
    case Delete => o.live && Reached(n.expiry, o.age)
    case AbortUpload => Reached(n.abort, o.age)
    case SetStorageClass(_) => false
  }

  /** A rule, were it no more than its normal form. */
  predicate Fires(n: Normal, action: Action, o: Subject) {
    n.status == "Enabled" && n.prefix <= o.name && ByDays(n, action, o)
  }

  /** The further conditions of a rule's filter. */
  predicate Selects(x: Extra, o: Subject) {
    && x.andPrefix <= o.name && x.tags <= o.tags
    && (x.over.Some? ==> o.size > x.over.value) && (x.under.Some? ==> o.size < x.under.value)
  }

  /** The further actions of a rule. */
  predicate Besides(x: Extra, action: Action, o: Subject) {
    match action
    case Delete =>
      || (x.date.Some? && o.live && o.today >= x.date.value)
      || (x.noncurrent.Some? && !o.live && o.noncurrentAge >= x.noncurrent.value.days && o.newer >= x.noncurrent.value.newer)
    case AbortUpload => false
    case SetStorageClass(c) => o.live && exists m <- x.moves :: m.class_ == c && o.age >= m.days
  }

  /** The prefix of a rule's filter, or of the rule itself when its filter has none. */
  predicate InScope(r: S3Rule, name: string) {
    match r.filter
    case Some(Some(prefix)) => prefix <= name
    case _ => r.prefix.Some? ==> r.prefix.value <= name
  }

  /** What a rule does, all of it. */
  predicate RuleFires(r: S3Rule, action: Action, o: Subject) {
    r.status == "Enabled" && InScope(r, o.name) && Selects(r.extra, o)
    && (ByDays(Normalised(r), action, o) || Besides(r.extra, action, o))
  }

  ghost predicate ConfigFires(rules: seq<S3Rule>, action: Action, o: Subject) {
    exists r <- rules :: RuleFires(r, action, o)
  }

  /** What S3 lets a bucket hold: positive days, satisfiable sizes, one prefix per
      filter, and an expiry in days or on a date but not both. */
  predicate Valid(r: S3Rule) {
    && Days(r.expiration) >= 0 && Days(r.abort) >= 0
    && (r.extra.under.Some? ==> r.extra.under.value > if r.extra.over.Some? then r.extra.over.value + 1 else 0)
    && (r.extra.andPrefix != "" ==> Prefix(r) == "")
    && (r.extra.date.Some? ==> Days(r.expiration) == 0)
  }

  /** The rule has no part outside the normal form that could tell. */
  predicate Portable(r: S3Rule) {
    var x, n := r.extra, Normalised(r);
    || r.status != "Enabled"
    || (&& x.date.None? && x.noncurrent.None? && x.moves == []
        && ((n.expiry == 0 && n.abort == 0) || (x.andPrefix == "" && x.tags == {} && x.over.None? && x.under.None?)))
  }

  /** An object the rule selects. */
  function Selected(r: S3Rule): Subject {
    var x := r.extra;
    Subject(Prefix(r) + x.andPrefix, 0, 0, None, None, 0, 0, true, "", 0,
            x.tags, if x.over.Some? then x.over.value + 1 else 0, 0)
  }

  lemma PortableMeansNormal(r: S3Rule, action: Action, o: Subject)
    requires Portable(r)
    ensures RuleFires(r, action, o) <==> Fires(Normalised(r), action, o)
  {
  }

  /** A rule that is not portable tells on some object. */
  lemma NotPortableTells(r: S3Rule) returns (action: Action, o: Subject)
    requires Valid(r) && !Portable(r)
    ensures RuleFires(r, action, o) != Fires(Normalised(r), action, o)
  {
    var x, n := r.extra, Normalised(r);
    var within := Selected(r);
    assert Prefix(r) <= within.name && Selects(x, within);
    if x.date.Some? {
      action, o := Delete, within.(today := x.date.value);
    } else if x.noncurrent.Some? {
      action, o := Delete, within.(live := false, noncurrentAge := x.noncurrent.value.days, newer := x.noncurrent.value.newer);
    } else if x.moves != [] {
      action, o := SetStorageClass(x.moves[0].class_), within.(age := x.moves[0].days);
      assert x.moves[0] in x.moves;
    } else {
      var days: nat := if n.expiry != 0 then n.expiry else n.abort;
      action := if n.expiry != 0 then Delete else AbortUpload;
      o := within.(age := days, name := Prefix(r), tags := {},
                   size := if x.over.Some? then x.over.value else if x.under.Some? then x.under.value else 0);
      assert Fires(n, action, o);
      assert !Selects(x, o);
    }
  }

  /** A rule does what its normal form says, on every object and for every action,
      exactly when it is disabled or has no further action and no narrower filter
      on anything it does. */
  lemma NormalFormExactly(r: S3Rule)
    requires Valid(r)
    ensures (forall action, o :: RuleFires(r, action, o) <==> Fires(Normalised(r), action, o)) <==> Portable(r)
  {
    if Portable(r) {
      forall action, o ensures RuleFires(r, action, o) <==> Fires(Normalised(r), action, o) {
        PortableMeansNormal(r, action, o);
      }
    } else {
      var action, o := NotPortableTells(r);
    }
  }

  ghost predicate DocumentFires(doc: seq<RawRule>, parse: DateParser, action: Action, o: Subject) {
    exists i | 0 <= i < |doc| :: ActionOf(doc[i]) == action && RawMatches(doc[i].cond, parse, o)
  }

  // ---- Translation ----

  const MAX_INT32 := 0x7fff_ffff

  /** int32(age) of a 64-bit age. */
  function Wrap32(age: int): int {
    (age + 0x8000_0000) % 0x1_0000_0000 - 0x8000_0000
  }

  datatype Refusal = NoAge(i: nat) | ManyPrefixes(i: nat) | OtherConditions(i: nat) | OtherAction(i: nat)

  /** Why rule i is outside the portable subset, checked in this order. */
  function Refused(r: Rule, i: nat): Option<Refusal> {
    var c := r.cond;
    if c.age.None? || c.age.value == 0 then Some(NoAge(i))
    else if |c.rest.prefixes| > 1 then Some(ManyPrefixes(i))
    else if c.created != 0 || c.custom != 0 || c.noncurrent != 0 || c.rest != PrefixOnly(c.rest.prefixes) then Some(OtherConditions(i))
    else if r.action.SetStorageClass? then Some(OtherAction(i))
    else None
  }

  function PrefixOnly(prefixes: seq<string>): Rest {
    Rest(0, 0, None, prefixes, [], [], 0)
  }

  function Translated(r: Rule, i: nat): S3Rule
    requires Refused(r, i).None?
  {
    var days := Wrap32(r.cond.age.value);
    S3Rule("buckety-" + Decimal.Show(i), "Enabled", Some(Some(FirstOr(r.cond.rest.prefixes, ""))), None,
           if r.action == Delete then Some(Some(days)) else None,
           if r.action == AbortUpload then Some(Some(days)) else None, NO_EXTRA)
  }

  /** The portable subset: an age, at most one prefix, no other condition, and an
      action other than a change of storage class. */
  lemma PortableSubsetExactly(r: Rule, i: nat)
    ensures Refused(r, i).None? <==>
      && r.cond.age.Some? && r.cond.age.value != 0 && |r.cond.rest.prefixes| <= 1
      && r.cond.created == 0 && r.cond.custom == 0 && r.cond.noncurrent == 0
      && r.cond.rest == Rest(0, 0, None, r.cond.rest.prefixes, [], [], 0)
      && r.action in {Delete, AbortUpload}
    // the first thing wrong is reported
    ensures r.cond.age.None? || r.cond.age.value == 0 <==> Refused(r, i) == Some(NoAge(i))
    ensures r.cond.age.Some? && r.cond.age.value != 0 && |r.cond.rest.prefixes| > 1 <==> Refused(r, i) == Some(ManyPrefixes(i))
    ensures Refused(r, i) == Some(OtherAction(i)) ==> r.action !in {Delete, AbortUpload}
  {
  }

  /** What a rule of that subset becomes: its prefix, and its days on its action alone. */
  lemma TranslatedExactly(r: Rule, i: nat)
    requires Refused(r, i).None?
    ensures
      var t, days := Translated(r, i), Wrap32(r.cond.age.value);
      && t.status == "Enabled" && t.filter == Some(Some(if r.cond.rest.prefixes == [] then "" else r.cond.rest.prefixes[0]))
      && t.expiration == (if r.action == Delete then Some(Some(days)) else None)
      && t.abort == (if r.action == AbortUpload then Some(Some(days)) else None)
      && t.prefix.None? && t.extra == Extra("", {}, None, None, None, None, [])
      && -0x8000_0000 <= days < 0x8000_0000 && (days - r.cond.age.value) % 0x1_0000_0000 == 0
  {
  }

  method TranslateLifecycle(rules: seq<Rule>) returns (r: Result<seq<S3Rule>, Refusal>)
    ensures r.Ok? ==> |r.value| == |rules| &&
                      forall i | 0 <= i < |rules| :: Refused(rules[i], i).None? && r.value[i] == Translated(rules[i], i)
    ensures r.Err? ==> exists i | 0 <= i < |rules| ::
                         Refused(rules[i], i) == Some(r.error) && forall j | 0 <= j < i :: Refused(rules[j], j).None?
  {
    var out := [];
    for i := 0 to |rules|
      invariant |out| == i
      invariant forall j | 0 <= j < i :: Refused(rules[j], j).None? && out[j] == Translated(rules[j], j)
    {
      var c := rules[i].cond;
      if c.age.None? || c.age.value == 0 {
        return Err(NoAge(i));
      }
      if |c.rest.prefixes| > 1 {
        return Err(ManyPrefixes(i));
      }
      if c.created != 0 || c.custom != 0 || c.noncurrent != 0 ||
         c.rest.daysSinceCustomTime != 0 || c.rest.daysSinceNoncurrentTime != 0 || c.rest.isLive != None ||
         |c.rest.classes| != 0 || |c.rest.suffixes| != 0 || c.rest.newerVersions != 0 {
        return Err(OtherConditions(i));
      }
      var prefix := "";
      if |c.rest.prefixes| == 1 {
        prefix := c.rest.prefixes[0];
      }
      var rule := S3Rule("buckety-" + Decimal.Show(i), "Enabled", Some(Some(prefix)), None, None, None, NO_EXTRA);
      match rules[i].action {
        case Delete => rule := rule.(expiration := Some(Some(Wrap32(c.age.value))));
        case AbortUpload => rule := rule.(abort := Some(Some(Wrap32(c.age.value))));
        case SetStorageClass(_) => return Err(OtherAction(i));
      }
      out := out + [rule];
    }
    return Ok(out);
  }

  /** The age survives the conversion to 32 bits. */
  predicate Fits(age: int) {
    if age > 0 then age <= MAX_INT32 else Wrap32(age) < 0
  }

  lemma FitsExactly(age: int)
    requires age != 0
    ensures Fits(age) <==> forall x: nat :: Reached(age, x) <==> Reached(Wrap32(age), x)
  {
    var w := Wrap32(age);
    if !Fits(age) {
      var x: nat := if age < 0 then 0 else if w == 0 then age else if w < 0 then 0 else w;
      assert Reached(age, x) != Reached(w, x);
    }
  }

  lemma TranslatedPrefix(r: Rule, i: nat, o: Subject)
    requires Refused(r, i).None?
    ensures Matches(r.cond, o) <==> o.age >= r.cond.age.value && FirstOr(r.cond.rest.prefixes, "") <= o.name
  {
    var prefixes := r.cond.rest.prefixes;
    assert prefixes != [] ==> |prefixes| == 1;
  }

  /** What a neutral rule asks for, as far as S3 can do it: an expiry leaves
      noncurrent versions alone. */
  predicate Asked(r: Rule, o: Subject) {
    Matches(r.cond, o) && (r.action == Delete ==> o.live)
  }

  lemma TranslatedFires(r: Rule, i: nat, o: Subject)
    requires Refused(r, i).None?
    ensures
      var age, prefix := r.cond.age.value, FirstOr(r.cond.rest.prefixes, "");
      && (Asked(r, o) <==> Reached(age, o.age) && prefix <= o.name && (r.action == Delete ==> o.live))
      && (RuleFires(Translated(r, i), r.action, o) <==>
          Reached(Wrap32(age), o.age) && prefix <= o.name && (r.action == Delete ==> o.live))
  {
    TranslatedPrefix(r, i, o);
  }

  /** One rule keeps its meaning, on every object and upload, exactly when its age
      fits 32 bits: for every positive age, when it is at most 2^31 - 1. */
  lemma RuleMeaningExactly(r: Rule, i: nat)
    requires Refused(r, i).None?
    ensures (forall o: Subject :: Asked(r, o) <==> RuleFires(Translated(r, i), r.action, o)) <==> Fits(r.cond.age.value)
  {
    hide Asked, RuleFires;
    var age, prefix := r.cond.age.value, FirstOr(r.cond.rest.prefixes, "");
    FitsExactly(age);
    forall o: Subject
      ensures Fits(age) ==> (Asked(r, o) <==> RuleFires(Translated(r, i), r.action, o))
    {
      TranslatedFires(r, i, o);
    }
    if !Fits(age) {
      var x: nat :| Reached(age, x) != Reached(Wrap32(age), x);
      var o := Example(r.cond).(age := x, name := prefix, live := true);
      TranslatedFires(r, i, o);
    }
  }

  /** An age of 2^32 + 1 days becomes one day. */
  lemma LongAgeTruncated(o: Subject)
    requires o.age == 1 && o.live
    ensures
      var r := Rule(Delete, Condition(Some(0x1_0000_0001), 0, 0, 0, PrefixOnly([])));
      Refused(r, 0).None? && !Matches(r.cond, o) && RuleFires(Translated(r, 0), Delete, o)
  {
    assert Wrap32(0x1_0000_0001) == 1;
    assert "" <= o.name;
  }

  predicate Neutrals(doc: seq<RawRule>, rules: seq<Rule>, parse: DateParser) {
    |rules| == |doc| && forall i | 0 <= i < |doc| :: Neutral(doc[i], rules[i], parse)
  }

  predicate Translation(rules: seq<Rule>, s3: seq<S3Rule>) {
    |s3| == |rules| && forall i | 0 <= i < |rules| :: Refused(rules[i], i).None? && s3[i] == Translated(rules[i], i)
  }

  lemma RulePreserved(raw: RawRule, rule: Rule, i: nat, parse: DateParser, o: Subject)
    requires Neutral(raw, rule, parse) && Refused(rule, i).None?
    requires !ZeroDated(raw.cond, parse) && Fits(rule.cond.age.value)
    ensures RuleFires(Translated(rule, i), rule.action, o) <==>
            RawMatches(raw.cond, parse, o) && (rule.action == Delete ==> o.live)
  {
    ParsedMeaningExactly(raw, rule, parse);
    RuleMeaningExactly(rule, i);
  }

  lemma OnlyItsAction(rule: Rule, i: nat, action: Action, o: Subject)
    requires Refused(rule, i).None?
    ensures RuleFires(Translated(rule, i), action, o) ==> rule.action == action
  {
  }

  /** The configuration expires and aborts exactly what the document asks for,
      noncurrent versions aside: it never expires one. */
  lemma MeaningPreserved(doc: seq<RawRule>, rules: seq<Rule>, s3: seq<S3Rule>, parse: DateParser, action: Action, o: Subject)
    requires Neutrals(doc, rules, parse) && Translation(rules, s3)
    requires forall i | 0 <= i < |doc| :: !ZeroDated(doc[i].cond, parse) && Fits(rules[i].cond.age.value)
    ensures ConfigFires(s3, action, o) <==> DocumentFires(doc, parse, action, o) && (action == Delete ==> o.live)
  {
    hide RuleFires, Refused, RawMatches;
    if DocumentFires(doc, parse, action, o) && (action == Delete ==> o.live) {
      var i :| 0 <= i < |doc| && ActionOf(doc[i]) == action && RawMatches(doc[i].cond, parse, o);
      RulePreserved(doc[i], rules[i], i, parse, o);
      assert s3[i] in s3;
    }
    if ConfigFires(s3, action, o) {
      var r :| r in s3 && RuleFires(r, action, o);
      var i :| 0 <= i < |s3| && s3[i] == r;
      OnlyItsAction(rules[i], i, action, o);
      RulePreserved(doc[i], rules[i], i, parse, o);
      assert ActionOf(doc[i]) == action;
    }
  }

  // ---- Comparison ----

  function KeyOf(n: Normal): string {
    n.prefix + "|" + Decimal.Show(n.expiry) + "|" + Decimal.Show(n.abort) + "|" + n.status
  }

  lemma NoLaterBar(x: string, y: string, x': string, y': string)
    requires x + "|" + y == x' + "|" + y' && '|' !in y
    ensures |x'| <= |x|
  {
    var s := x + "|" + y;
    assert s[|x'|] == '|';
    forall j | |x| < j < |s| ensures s[j] != '|' {
      assert s[j] == y[j - |x| - 1];
    }
  }

  lemma SplitLast(x: string, y: string, x': string, y': string)
    requires x + "|" + y == x' + "|" + y' && '|' !in y && '|' !in y'
    ensures x == x' && y == y'
  {
    var s := x + "|" + y;
    NoLaterBar(x, y, x', y');
    NoLaterBar(x', y', x, y);
    assert x == s[..|x|] && y == s[|x| + 1..];
    assert x' == s[..|x'|] && y' == s[|x'| + 1..];
  }

  /** The joined key tells rules apart although prefixes may contain the separator. */
  lemma KeyInjective(m: Normal, n: Normal)
    requires '|' !in m.status && '|' !in n.status
    requires KeyOf(m) == KeyOf(n)
    ensures m == n
  {
    forall k: int ensures '|' !in Decimal.Show(k) {
      Decimal.ShownSign(k);
    }
    var m2, n2 := m.prefix + "|" + Decimal.Show(m.expiry), n.prefix + "|" + Decimal.Show(n.expiry);
    SplitLast(m2 + "|" + Decimal.Show(m.abort), m.status, n2 + "|" + Decimal.Show(n.abort), n.status);
    SplitLast(m2, Decimal.Show(m.abort), n2, Decimal.Show(n.abort));
    SplitLast(m.prefix, Decimal.Show(m.expiry), n.prefix, Decimal.Show(n.expiry));
    Decimal.ShowInjective(m.abort, n.abort);
    Decimal.ShowInjective(m.expiry, n.expiry);
  }

  predicate Plain(ns: seq<Normal>) {
    forall n <- ns :: '|' !in n.status
  }

  function SortedKeys(rules: seq<S3Rule>): seq<string> {
    Sorting.Sort(Sorting.Mapped(KeyOf, NormalsOf(rules)))
  }

  /** Sorted joined keys decide whether two configurations hold the same rules. */
  lemma SortedKeysDecide(a: seq<S3Rule>, b: seq<S3Rule>)
    requires Plain(NormalsOf(a)) && Plain(NormalsOf(b))
    ensures SortedKeys(a) == SortedKeys(b) <==> SameRules(a, b)
  {
    var m, n := NormalsOf(a), NormalsOf(b);
    forall x, y | x in m + n && y in m + n && KeyOf(y) == KeyOf(x) ensures y == x {
      KeyInjective(y, x);
    }
    Sorting.KeysDecide(KeyOf, m, n);
  }

  method KeysOf(rules: seq<S3Rule>) returns (keys: seq<string>)
    ensures keys == Sorting.Mapped(KeyOf, NormalsOf(rules))
  {
    keys := [];
    for i := 0 to |rules|
      invariant |keys| == i && forall j | 0 <= j < i :: keys[j] == KeyOf(NormalsOf(rules)[j])
    {
      keys := keys + [KeyOf(Normalised(rules[i]))];
    }
  }

  method LifecycleEqual(a: seq<S3Rule>, b: seq<S3Rule>) returns (equal: bool)
    requires Plain(NormalsOf(a)) && Plain(NormalsOf(b))
    ensures equal <==> SameRules(a, b)
  {
    if |a| != |b| {
      DifferentLength(a, b);
      return false;
    }
    var ka := KeysOf(a);
    var kb := KeysOf(b);
    SameLength(ka);
    SameLength(kb);
    equal := Equal(Sorting.Sort(ka), Sorting.Sort(kb));
    SortedKeysDecide(a, b);
  }

  method Equal(ka: seq<string>, kb: seq<string>) returns (equal: bool)
    requires |ka| == |kb|
    ensures equal <==> ka == kb
  {
    for i := 0 to |ka|
      invariant ka[..i] == kb[..i]
    {
      if ka[i] != kb[i] {
        return false;
      }
    }
    return true;
  }

  lemma DifferentLength(a: seq<S3Rule>, b: seq<S3Rule>)
    requires |a| != |b|
    ensures !SameRules(a, b)
  {
    assert |multiset(NormalsOf(a))| == |a| && |multiset(NormalsOf(b))| == |b|;
  }

  lemma SameLength(keys: seq<string>)
    ensures |Sorting.Sort(keys)| == |keys|
  {
    Sorting.SortSorts(keys);
    assert |Sorting.Sort(keys)| == |multiset(Sorting.Sort(keys))| == |keys|;
  }

  // ---- Reconciliation ----

  datatype Reply = Fine | NotImplemented | Fails

  datatype Problem = BadDocument(why: ObjectStoreLifecycle.Problem) | Unsupported(why_: Refusal) | CallFailed

  ghost predicate AllPortable(rules: seq<S3Rule>) {
    forall r <- rules :: Portable(r)
  }

  /** A portable configuration does what its normal forms say. */
  lemma ConfigNormal(rules: seq<S3Rule>, action: Action, o: Subject)
    requires AllPortable(rules)
    ensures ConfigFires(rules, action, o) <==> exists n <- NormalsOf(rules) :: Fires(n, action, o)
  {
    hide RuleFires, Fires, Portable;
    forall i | 0 <= i < |rules|
      ensures rules[i] in rules && NormalsOf(rules)[i] == Normalised(rules[i])
      ensures RuleFires(rules[i], action, o) <==> Fires(NormalsOf(rules)[i], action, o)
    {
      PortableMeansNormal(rules[i], action, o);
    }
    if r :| r in rules && RuleFires(r, action, o) {
      var i :| 0 <= i < |rules| && rules[i] == r;
      assert NormalsOf(rules)[i] in NormalsOf(rules);
    }
    if n :| n in NormalsOf(rules) && Fires(n, action, o) {
      var i :| 0 <= i < |rules| && NormalsOf(rules)[i] == n;
      assert rules[i] in rules;
    }
  }

  /** Portable configurations found equal do the same things. */
  lemma SameRulesSameMeaning(a: seq<S3Rule>, b: seq<S3Rule>, action: Action, o: Subject)
    requires SameRules(a, b) && AllPortable(a) && AllPortable(b)
    ensures ConfigFires(a, action, o) <==> ConfigFires(b, action, o)
  {
    ConfigNormal(a, action, o);
    ConfigNormal(b, action, o);
    assert forall n :: n in NormalsOf(a) <==> n in multiset(NormalsOf(a));
    assert forall n :: n in NormalsOf(b) <==> n in multiset(NormalsOf(b));
  }

  /** Others need not: a bucket whose 30-day rule is for one tag only is taken to
      hold a document's 30-day rule, which expires objects without the tag as well. */
  lemma TagsOverlooked(o: Subject, tag: string)
    requires o.live && o.age >= 30 && tag !in o.tags
    ensures
      var wanted := Translated(Rule(Delete, Condition(Some(30), 0, 0, 0, PrefixOnly([]))), 0);
      var held := S3Rule("by-tag", "Enabled", Some(None), None, Some(Some(30)), None, NO_EXTRA.(tags := {tag}));
      && Valid(held) && SameRules([held], [wanted])
      && ConfigFires([wanted], Delete, o) && !ConfigFires([held], Delete, o)
  {
    var wanted := Translated(Rule(Delete, Condition(Some(30), 0, 0, 0, PrefixOnly([]))), 0);
    var held := S3Rule("by-tag", "Enabled", Some(None), None, Some(Some(30)), None, NO_EXTRA.(tags := {tag}));
    assert Wrap32(30) == 30;
    assert Normalised(held) == Normalised(wanted) == Normal("", 30, 0, "Enabled");
    assert NormalsOf([held]) == NormalsOf([wanted]);
    assert wanted in [wanted] && RuleFires(wanted, Delete, o);
    assert tag in held.extra.tags && !RuleFires(held, Delete, o);
  }

  /** What the driver writes is portable. */
  lemma TranslationPortable(rules: seq<Rule>, s3: seq<S3Rule>)
    requires Translation(rules, s3)
    ensures AllPortable(s3)
  {
    forall r | r in s3 ensures Portable(r) {
      var i :| 0 <= i < |s3| && s3[i] == r;
      assert r == Translated(rules[i], i);
    }
  }

  /** A bucket found to hold a document's rules, and nothing that is not portable,
      expires and aborts what the document asks for. */
  lemma HeldMeaning(
    doc: seq<RawRule>, rules: seq<Rule>, s3: seq<S3Rule>, held: seq<S3Rule>, parse: DateParser, action: Action, o: Subject)
    requires Neutrals(doc, rules, parse) && Translation(rules, s3) && SameRules(held, s3) && AllPortable(held)
    requires forall i | 0 <= i < |doc| :: !ZeroDated(doc[i].cond, parse) && Fits(rules[i].cond.age.value)
    ensures ConfigFires(held, action, o) <==> DocumentFires(doc, parse, action, o) && (action == Delete ==> o.live)
  {
    TranslationPortable(rules, s3);
    SameRulesSameMeaning(held, s3, action, o);
    MeaningPreserved(doc, rules, s3, parse, action, o);
  }

  /** A bucket's lifecycle configuration; a bucket without one has no rules. */
  class BucketLifecycle {
    var rules: seq<S3Rule>
    var writes: nat

    constructor (configured: seq<S3Rule>)
      ensures rules == configured && writes == 0
    {
      rules, writes := configured, 0;
    }

    /** With no lifecycle parameter nothing is touched.  Otherwise, when the calls
        succeed, the document's rules are put in place unless those the bucket
        holds have the same normal forms; then it is left as it is, also when they
        have parts the comparison does not read. */
    method Reconcile(param: Option<Option<seq<RawRule>>>, parse: DateParser, read: Reply, write: Reply)
      returns (err: Option<Problem>, ghost neutral: seq<Rule>, ghost desired: seq<S3Rule>)
      requires Plain(NormalsOf(rules))
      modifies this
      ensures param.None? ==> err.None?
      ensures param.None? || (err.Some? && !err.value.CallFailed?) ==> rules == old(rules) && writes == old(writes)
      ensures param.Some? && (err.None? || err.value.CallFailed?) ==>
                && param.value.Some? && Neutrals(param.value.value, neutral, parse) && Translation(neutral, desired)
                && (err.Some? <==> read.Fails? || (read.Fine? && write.Fails? && !SameRules(old(rules), desired)))
                && (read.Fine? && write.Fine? ==>
                    err.None? && rules == if SameRules(old(rules), desired) then old(rules) else desired)
                && (!read.Fine? || !write.Fine? ==> rules == old(rules))
                && writes == old(writes) + if read.Fine? && !SameRules(old(rules), desired) then 1 else 0
      ensures Plain(NormalsOf(rules))
    {
      err, neutral, desired := None, [], [];
      if param.None? {
        return;
      }
      var parsed := ParseLifecycle(param.value, parse);
      if parsed.Err? {
        err := Some(BadDocument(parsed.error));
        return;
      }
      var translated := TranslateLifecycle(parsed.value);
      if translated.Err? {
        err := Some(Unsupported(translated.error));
        return;
      }
      var want := translated.value;
      neutral, desired := parsed.value, want;
      TranslationPlain(neutral, desired);
      if read.Fails? {
        err := Some(CallFailed);
        return;
      }
      if read.NotImplemented? {
        return;
      }
      var equal := LifecycleEqual(rules, want);
      if equal {
        return;
      }
      writes := writes + 1;
      if write.Fails? {
        err := Some(CallFailed);
        return;
      }
      if write.Fine? {
        // An empty list deletes the configuration, any other one is put in its place.
        rules := want;
      }
    }
  }

  lemma TranslationPlain(rules: seq<Rule>, s3: seq<S3Rule>)
    requires Translation(rules, s3)
    ensures Plain(NormalsOf(s3))
  {
    forall n | n in NormalsOf(s3) ensures '|' !in n.status {
      var i :| 0 <= i < |s3| && n == Normalised(s3[i]);
      assert s3[i] == Translated(rules[i], i);
    }
  }
}
