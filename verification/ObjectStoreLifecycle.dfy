/** Lifecycle documents of the object-store family: what a decoded document means
    and how it is checked and brought into neutral form. */
module ObjectStoreLifecycle {
  import opened Wrappers

  /** A rule as decoded.  Zero values mean "not given", also for numbers. */
  datatype RawRule = RawRule(typ: string, storageClass: string, cond: RawCondition)

  datatype RawCondition = RawCondition(
    age: Option<int>, createdBefore: string, customTimeBefore: string, noncurrentTimeBefore: string, rest: Rest)

  /** The conditions that neutral rules carry over unchanged. */
  datatype Rest = Rest(
    daysSinceCustomTime: int, daysSinceNoncurrentTime: int, isLive: Option<bool>,
    prefixes: seq<string>, classes: seq<string>, suffixes: seq<string>, newerVersions: int)

  datatype Action = Delete | AbortUpload | SetStorageClass(class_: string)

  datatype Rule = Rule(action: Action, cond: Condition)

  /** Dates are days; day 0 is the zero time, which stands for "not given". */
  datatype Condition = Condition(age: Option<int>, created: int, custom: int, noncurrent: int, rest: Rest)

  datatype Problem =
    | MissingList | ClassNotAllowed(i: nat) | ClassRequired(i: nat) | TypeRequired(i: nat) | TypeUnknown(i: nat) | BadDate(i: nat)

  /** time.Parse of a non-empty YYYY-MM-DD. */
  type DateParser = string -> Option<int>

  // ---- What a document asks for ----

  /** An object version, or an upload under way: its name, its age in days, and
      the days of its times.  Tags, size and the current day matter to rules that
      no document can ask for. */
  datatype Subject = Subject(
    name: string, age: nat, created: int, custom: Option<int>, noncurrent: Option<int>,
    customAge: int, noncurrentAge: int, live: bool, class_: string, newer: int,
    tags: set<string>, size: nat, today: int)

  predicate EndsWith(s: string, suffix: string) {
    |suffix| <= |s| && s[|s| - |suffix|..] == suffix
  }

  predicate RestMatches(r: Rest, o: Subject) {
    && (r.daysSinceCustomTime != 0 ==> o.custom.Some? && o.customAge >= r.daysSinceCustomTime)
    && (r.daysSinceNoncurrentTime != 0 ==> o.noncurrent.Some? && o.noncurrentAge >= r.daysSinceNoncurrentTime)
    && (r.isLive.Some? ==> o.live == r.isLive.value)
    && (r.prefixes != [] ==> exists i | 0 <= i < |r.prefixes| :: r.prefixes[i] <= o.name)
    && (r.classes != [] ==> exists i | 0 <= i < |r.classes| :: r.classes[i] == o.class_)
    && (r.suffixes != [] ==> exists i | 0 <= i < |r.suffixes| :: EndsWith(o.name, r.suffixes[i]))
    && (r.newerVersions != 0 ==> o.newer >= r.newerVersions)
  }

  predicate DateHolds(given: string, parse: DateParser, time: Option<int>) {
    given != "" ==> parse(given).Some? && time.Some? && time.value < parse(given).value
  }

  /** A rule's conditions as the document states them. */
  predicate RawMatches(c: RawCondition, parse: DateParser, o: Subject) {
    && (c.age.Some? ==> o.age >= c.age.value)
    && DateHolds(c.createdBefore, parse, Some(o.created))
    && DateHolds(c.customTimeBefore, parse, o.custom)
    && DateHolds(c.noncurrentTimeBefore, parse, o.noncurrent)
    && RestMatches(c.rest, o)
  }

  predicate DayHolds(day: int, time: Option<int>) {
    day != 0 ==> time.Some? && time.value < day
  }

  predicate Matches(c: Condition, o: Subject) {
    && (c.age.Some? ==> o.age >= c.age.value)
    && DayHolds(c.created, Some(o.created))
    && DayHolds(c.custom, o.custom)
    && DayHolds(c.noncurrent, o.noncurrent)
    && RestMatches(c.rest, o)
  }

  // ---- Parsing ----

  predicate DateFine(given: string, parse: DateParser) {
    given == "" || parse(given).Some?
  }

  function Day(given: string, parse: DateParser): int
    requires DateFine(given, parse)
  {
    if given == "" then 0 else parse(given).value
  }

  /** What is wrong with rule i, checked in the order the fields are read. */
  function RuleProblem(r: RawRule, i: nat, parse: DateParser): Option<Problem> {
    if r.typ in ["Delete", "AbortIncompleteMultipartUpload"] && r.storageClass != "" then Some(ClassNotAllowed(i))
    else if r.typ == "SetStorageClass" && r.storageClass == "" then Some(ClassRequired(i))
    else if r.typ == "" then Some(TypeRequired(i))
    else if r.typ !in ["Delete", "AbortIncompleteMultipartUpload", "SetStorageClass"] then Some(TypeUnknown(i))
    else if DateFine(r.cond.createdBefore, parse) && DateFine(r.cond.customTimeBefore, parse) &&
            DateFine(r.cond.noncurrentTimeBefore, parse) then None
    else Some(BadDate(i))
  }

  function ActionOf(r: RawRule): Action {
    if r.typ == "Delete" then Delete else if r.typ == "SetStorageClass" then SetStorageClass(r.storageClass) else AbortUpload
  }

  predicate Neutral(raw: RawRule, rule: Rule, parse: DateParser)
  {
    && rule.action == ActionOf(raw)
    && DateFine(raw.cond.createdBefore, parse)
    && DateFine(raw.cond.customTimeBefore, parse)
    && DateFine(raw.cond.noncurrentTimeBefore, parse)
    && rule.cond == Condition(
         raw.cond.age, Day(raw.cond.createdBefore, parse), Day(raw.cond.customTimeBefore, parse),
         Day(raw.cond.noncurrentTimeBefore, parse), raw.cond.rest)
  }

  /** A rule is accepted exactly when its type is one of the three, a storage class
      is given with the one that needs it and with no other, and every date given
      parses; its action is that type. */
  lemma AcceptedExactly(r: RawRule, i: nat, parse: DateParser)
    ensures RuleProblem(r, i, parse).None? <==>
      && r.typ in {"Delete", "AbortIncompleteMultipartUpload", "SetStorageClass"}
      && (r.storageClass != "" <==> r.typ == "SetStorageClass")
      && (forall d <- {r.cond.createdBefore, r.cond.customTimeBefore, r.cond.noncurrentTimeBefore} :: d == "" || parse(d).Some?)
    ensures r.typ == "Delete" ==> ActionOf(r) == Delete
    ensures r.typ == "AbortIncompleteMultipartUpload" ==> ActionOf(r) == AbortUpload
    ensures r.typ == "SetStorageClass" ==> ActionOf(r) == SetStorageClass(r.storageClass)
  {
    assert "Delete"[0] == 'D' && "AbortIncompleteMultipartUpload"[0] == 'A' && "SetStorageClass"[0] == 'S';
  }

  method ParseDate(given: string, i: nat, parse: DateParser) returns (r: Result<int, Problem>)
    ensures DateFine(given, parse) ==> r == Ok(Day(given, parse))
    ensures !DateFine(given, parse) ==> r == Err(BadDate(i))
  {
    if given == "" {
      return Ok(0);
    }
    match parse(given)
    case Some(day) => return Ok(day);
    case None => return Err(BadDate(i));
  }

  /** All rules in neutral form, or the problem of the first bad one. */
  method ParseLifecycle(doc: Option<seq<RawRule>>, parse: DateParser) returns (r: Result<seq<Rule>, Problem>)
    ensures doc.None? ==> r == Err(MissingList)
    ensures doc.Some? && r.Ok? ==>
              && |r.value| == |doc.value|
              && forall i | 0 <= i < |doc.value| :: RuleProblem(doc.value[i], i, parse).None? && Neutral(doc.value[i], r.value[i], parse)
    ensures doc.Some? && r.Err? ==>
              exists i | 0 <= i < |doc.value| ::
                RuleProblem(doc.value[i], i, parse) == Some(r.error) &&
                forall j | 0 <= j < i :: RuleProblem(doc.value[j], j, parse).None?
  {
    if doc.None? {
      return Err(MissingList);
    }
    var raws, out := doc.value, [];
    for i := 0 to |raws|
      invariant |out| == i
      invariant forall j | 0 <= j < i :: RuleProblem(raws[j], j, parse).None? && Neutral(raws[j], out[j], parse)
    {
      var raw := raws[i];
      var action: Action;
      if raw.typ == "Delete" || raw.typ == "AbortIncompleteMultipartUpload" {
        if raw.storageClass != "" {
          return Err(ClassNotAllowed(i));
        }
        action := if raw.typ == "Delete" then Delete else AbortUpload;
      } else if raw.typ == "SetStorageClass" {
        if raw.storageClass == "" {
          return Err(ClassRequired(i));
        }
        action := SetStorageClass(raw.storageClass);
      } else if raw.typ == "" {
        return Err(TypeRequired(i));
      } else {
        return Err(TypeUnknown(i));
      }
      var created := ParseDate(raw.cond.createdBefore, i, parse);
      if created.Err? {
        return Err(created.error);
      }
      var custom := ParseDate(raw.cond.customTimeBefore, i, parse);
      if custom.Err? {
        return Err(custom.error);
      }
      var noncurrent := ParseDate(raw.cond.noncurrentTimeBefore, i, parse);
      if noncurrent.Err? {
        return Err(noncurrent.error);
      }
      out := out + [Rule(action, Condition(raw.cond.age, created.value, custom.value, noncurrent.value, raw.cond.rest))];
    }
    return Ok(out);
  }

  predicate IsZeroDate(given: string, parse: DateParser) {
    given != "" && parse(given) == Some(0)
  }

  predicate ZeroDated(c: RawCondition, parse: DateParser) {
    IsZeroDate(c.createdBefore, parse) || IsZeroDate(c.customTimeBefore, parse) || IsZeroDate(c.noncurrentTimeBefore, parse)
  }

  function FirstOr(s: seq<string>, otherwise: string): string {
    if s == [] then otherwise else s[0]
  }

  function DayBefore(day: int): int {
    if day == 0 then 0 else day - 1
  }

  /** A subject that meets all conditions of a neutral rule, and no zero date. */
  function Example(c: Condition): Subject {
    Subject(
      FirstOr(c.rest.prefixes, "") + FirstOr(c.rest.suffixes, ""),
      if c.age.Some? && c.age.value > 0 then c.age.value else 0,
      DayBefore(c.created), Some(DayBefore(c.custom)), Some(DayBefore(c.noncurrent)),
      c.rest.daysSinceCustomTime, c.rest.daysSinceNoncurrentTime,
      if c.rest.isLive.Some? then c.rest.isLive.value else true,
      FirstOr(c.rest.classes, ""), c.rest.newerVersions, {}, 0, 0)
  }

  lemma ExampleMatches(c: Condition)
    ensures Matches(c, Example(c))
  {
    var r, o := c.rest, Example(c);
    if r.prefixes != [] {
      assert r.prefixes[0] <= o.name;
    }
    if r.suffixes != [] {
      assert EndsWith(o.name, r.suffixes[0]);
    }
    if r.classes != [] {
      assert r.classes[0] == o.class_;
    }
  }

  /** Parsing keeps a rule's meaning exactly when none of its dates is the zero
      time: that one counts as no date at all, and the rule then matches more. */
  lemma ParsedMeaningExactly(raw: RawRule, rule: Rule, parse: DateParser)
    requires Neutral(raw, rule, parse)
    ensures (forall o: Subject :: RawMatches(raw.cond, parse, o) <==> Matches(rule.cond, o)) <==> !ZeroDated(raw.cond, parse)
    ensures forall o: Subject :: RawMatches(raw.cond, parse, o) ==> Matches(rule.cond, o)
  {
    ExampleMatches(rule.cond);
    if ZeroDated(raw.cond, parse) {
      assert !RawMatches(raw.cond, parse, Example(rule.cond));
    }
  }
}
