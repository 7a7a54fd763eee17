/** Status writes of both reconcilers: conditions, their transition times, and
    whether a pass writes status at all.  A status write wakes the controller's
    own watch, so a pass that finds nothing new must not write. */
module StatusConditions {

  import opened Wrappers

  datatype Condition = Condition(
    typ: string, status: bool, reason: string, message: string, generation: int, since: int)

  /** `fields` are the status fields besides the conditions. */
  datatype Status = Status(fields: map<string, string>, conditions: seq<Condition>)

  // ---- The library operations on a condition list ----

  function Find(conds: seq<Condition>, typ: string): Option<Condition> {
    if conds == [] then None
    else if conds[0].typ == typ then Some(conds[0])
    else Find(conds[1..], typ)
  }

  /** meta.SetStatusCondition: the time moves only with the status; a new condition goes last. */
  function SetCondition(conds: seq<Condition>, c: Condition): seq<Condition> {
    if conds == [] then [c]
    else if conds[0].typ == c.typ then
      [if conds[0].status == c.status then c.(since := conds[0].since) else c] + conds[1..]
    else [conds[0]] + SetCondition(conds[1..], c)
  }

  /** meta.RemoveStatusCondition. */
  function RemoveCondition(conds: seq<Condition>, typ: string): seq<Condition> {
    if conds == [] then []
    else if conds[0].typ == typ then RemoveCondition(conds[1..], typ)
    else [conds[0]] + RemoveCondition(conds[1..], typ)
  }

  function Types(conds: seq<Condition>): seq<string> {
    if conds == [] then [] else [conds[0].typ] + Types(conds[1..])
  }

  predicate Unique(conds: seq<Condition>) {
    conds != [] ==> conds[0].typ !in Types(conds[1..]) && Unique(conds[1..])
  }

  /** KeepTransitionTimes, condition by condition. */
  function Kept(base: seq<Condition>, c: Condition): Condition {
    var b := Find(base, c.typ);
    if b.Some? && b.value.status == c.status then c.(since := b.value.since) else c
  }

  function KeepAll(base: seq<Condition>, conds: seq<Condition>): (r: seq<Condition>)
    ensures |r| == |conds| && forall i | 0 <= i < |r| :: r[i] == Kept(base, conds[i])
  {
    if conds == [] then [] else [Kept(base, conds[0])] + KeepAll(base, conds[1..])
  }

  function WithoutMessages(conds: seq<Condition>): (r: seq<Condition>)
    ensures |r| == |conds| && forall i | 0 <= i < |r| :: r[i] == conds[i].(message := "")
  {
    if conds == [] then [] else [conds[0].(message := "")] + WithoutMessages(conds[1..])
  }

  predicate ChangedBeyondMessages(base: Status, cur: Status) {
    base.(conditions := WithoutMessages(base.conditions)) != cur.(conditions := WithoutMessages(cur.conditions))
  }

  // ---- A pass, as the status edits it makes before its one write ----

  datatype Edit =
    | Set(typ: string, status: bool, reason: string)
    | Remove(typ: string)
    | Field(key: string, value: string)

  /** What an edit leaves open: the text of its message and the clock. */
  type Draw = (string, int)

  function Apply(s: Status, e: Edit, generation: int, draw: Draw): Status {
    match e
    case Set(typ, status, reason) =>
      s.(conditions := SetCondition(s.conditions, Condition(typ, status, reason, draw.0, generation, draw.1)))
    case Remove(typ) => s.(conditions := RemoveCondition(s.conditions, typ))
    case Field(key, value) => s.(fields := s.fields[key := value])
  }

  function ApplyAll(s: Status, edits: seq<Edit>, generation: int, draws: seq<Draw>): Status
    requires |draws| == |edits|
    decreases |edits|
  {
    if edits == [] then s
    else ApplyAll(Apply(s, edits[0], generation, draws[0]), edits[1..], generation, draws[1..])
  }

  /** The status a pass would write: its edits, with transition times kept against what is stored. */
  function Proposed(s: Status, edits: seq<Edit>, generation: int, draws: seq<Draw>): Status
    requires |draws| == |edits|
  {
    var cur := ApplyAll(s, edits, generation, draws);
    cur.(conditions := KeepAll(s.conditions, cur.conditions))
  }

  predicate Writes(s: Status, edits: seq<Edit>, generation: int, draws: seq<Draw>)
    requires |draws| == |edits|
  {
    ChangedBeyondMessages(s, Proposed(s, edits, generation, draws))
  }

  /** patchStatus: what is stored after the pass. */
  function Stored(s: Status, edits: seq<Edit>, generation: int, draws: seq<Draw>): Status
    requires |draws| == |edits|
  {
    if Writes(s, edits, generation, draws) then Proposed(s, edits, generation, draws) else s
  }

  /** No edit sets a condition that an earlier edit of the same pass removed. */
  predicate Steady(edits: seq<Edit>) {
    forall i, j | 0 <= i < j < |edits| :: edits[i].Remove? && edits[j].Set? ==> edits[i].typ != edits[j].typ
  }

  // ---- What a list of edits comes to ----

  datatype Net = Untouched | Gone | Put(status: bool, reason: string)

  function NetOf(edits: seq<Edit>, typ: string): Net {
    if edits == [] then Untouched
    else
      var rest := NetOf(edits[1..], typ);
      if rest != Untouched then rest
      else match edits[0]
        case Set(t, status, reason) => if t == typ then Put(status, reason) else Untouched
        case Remove(t) => if t == typ then Gone else Untouched
        case Field(_, _) => Untouched
  }

  function AddType(types: seq<string>, typ: string): seq<string> {
    if typ in types then types else types + [typ]
  }

  function DropType(types: seq<string>, typ: string): seq<string> {
    if types == [] then []
    else if types[0] == typ then DropType(types[1..], typ)
    else [types[0]] + DropType(types[1..], typ)
  }

  function TypesAfter(types: seq<string>, edits: seq<Edit>): seq<string>
    decreases |edits|
  {
    if edits == [] then types
    else match edits[0]
      case Set(t, _, _) => TypesAfter(AddType(types, t), edits[1..])
      case Remove(t) => TypesAfter(DropType(types, t), edits[1..])
      case Field(_, _) => TypesAfter(types, edits[1..])
  }

  function FieldsAfter(fields: map<string, string>, edits: seq<Edit>): map<string, string>
    decreases |edits|
  {
    if edits == [] then fields
    else FieldsAfter(if edits[0].Field? then fields[edits[0].key := edits[0].value] else fields, edits[1..])
  }

  /** The edits change nothing but messages: judged without messages or clock. */
  ghost predicate Fixed(s: Status, edits: seq<Edit>, generation: int) {
    && TypesAfter(Types(s.conditions), edits) == Types(s.conditions)
    && FieldsAfter(s.fields, edits) == s.fields
    && forall typ <- Types(s.conditions) ::
         NetOf(edits, typ).Put? ==>
           var c := Find(s.conditions, typ);
           c.Some? && c.value.status == NetOf(edits, typ).status && c.value.reason == NetOf(edits, typ).reason &&
           c.value.generation == generation
  }

  // ---- List lemmas ----

  lemma FindTypes(conds: seq<Condition>, typ: string)
    ensures Find(conds, typ).Some? <==> typ in Types(conds)
    ensures Find(conds, typ).Some? ==> Find(conds, typ).value.typ == typ && Find(conds, typ).value in conds
  {
  }

  lemma SetTypes(conds: seq<Condition>, c: Condition)
    ensures Types(SetCondition(conds, c)) == AddType(Types(conds), c.typ)
    ensures Unique(conds) ==> Unique(SetCondition(conds, c))
  {
  }

  lemma SetFind(conds: seq<Condition>, c: Condition, typ: string)
    ensures
      var f := Find(SetCondition(conds, c), typ);
      var g := Find(conds, typ);
      if typ != c.typ then f == g
      else f == Some(if g.Some? && g.value.status == c.status then c.(since := g.value.since) else c)
  {
  }

  lemma RemoveTypes(conds: seq<Condition>, typ: string)
    ensures Types(RemoveCondition(conds, typ)) == DropType(Types(conds), typ)
    ensures Unique(conds) ==> Unique(RemoveCondition(conds, typ))
  {
    if conds != [] {
      DropMembers(Types(conds[1..]), typ);
    }
  }

  lemma RemoveFind(conds: seq<Condition>, removed: string, typ: string)
    ensures Find(RemoveCondition(conds, removed), typ) == if typ == removed then None else Find(conds, typ)
  {
  }

  lemma DropMembers(types: seq<string>, typ: string)
    ensures forall t :: t in DropType(types, typ) <==> t in types && t != typ
    ensures typ !in types ==> DropType(types, typ) == types
  {
  }

  lemma DropConcat(a: seq<string>, b: seq<string>, typ: string)
    ensures DropType(a + b, typ) == DropType(a, typ) + DropType(b, typ)
  {
    if a == [] {
      assert a + b == b;
    } else {
      assert (a + b)[1..] == a[1..] + b;
    }
  }

  lemma {:induction false} NetRemoved(edits: seq<Edit>, i: nat)
    requires Steady(edits) && i < |edits| && edits[i].Remove?
    ensures NetOf(edits, edits[i].typ) == Gone
    decreases |edits|
  {
    if i > 0 {
      assert Steady(edits[1..]);
      NetRemoved(edits[1..], i - 1);
    } else {
      NetNotSet(edits[1..], edits[0].typ);
    }
  }

  lemma {:induction false} NetNotSet(edits: seq<Edit>, typ: string)
    requires forall e <- edits :: e.Set? ==> e.typ != typ
    ensures !NetOf(edits, typ).Put?
    decreases |edits|
  {
    if edits != [] {
      NetNotSet(edits[1..], typ);
    }
  }

  // ---- What one pass proposes ----

  lemma {:induction false} AppliedTypes(s: Status, edits: seq<Edit>, generation: int, draws: seq<Draw>)
    requires |draws| == |edits| && Unique(s.conditions)
    ensures
      var t := ApplyAll(s, edits, generation, draws);
      Types(t.conditions) == TypesAfter(Types(s.conditions), edits) && Unique(t.conditions) &&
      t.fields == FieldsAfter(s.fields, edits)
    decreases |edits|
  {
    if edits != [] {
      match edits[0] {
        case Set(typ, status, reason) =>
          SetTypes(s.conditions, Condition(typ, status, reason, draws[0].0, generation, draws[0].1));
        case Remove(typ) => RemoveTypes(s.conditions, typ);
        case Field(_, _) =>
      }
      AppliedTypes(Apply(s, edits[0], generation, draws[0]), edits[1..], generation, draws[1..]);
    }
  }

  lemma {:induction false} AppliedFind(s: Status, edits: seq<Edit>, generation: int, draws: seq<Draw>, typ: string)
    requires |draws| == |edits|
    ensures
      var f := Find(ApplyAll(s, edits, generation, draws).conditions, typ);
      match NetOf(edits, typ)
      case Untouched => f == Find(s.conditions, typ)
      case Gone => f.None?
      case Put(status, reason) =>
        f.Some? && f.value.typ == typ && f.value.status == status && f.value.reason == reason && f.value.generation == generation
    decreases |edits|
  {
    if edits != [] {
      match edits[0] {
        case Set(t, status, reason) =>
          SetFind(s.conditions, Condition(t, status, reason, draws[0].0, generation, draws[0].1), typ);
        case Remove(t) => RemoveFind(s.conditions, t, typ);
        case Field(_, _) =>
      }
      AppliedFind(Apply(s, edits[0], generation, draws[0]), edits[1..], generation, draws[1..], typ);
    }
  }

  lemma {:induction false} TypesMember(types: seq<string>, edits: seq<Edit>, typ: string)
    ensures typ in TypesAfter(types, edits) <==> NetOf(edits, typ).Put? || (NetOf(edits, typ).Untouched? && typ in types)
    decreases |edits|
  {
    if edits != [] {
      match edits[0] {
        case Set(t, _, _) => TypesMember(AddType(types, t), edits[1..], typ);
        case Remove(t) => DropMembers(types, t); TypesMember(DropType(types, t), edits[1..], typ);
        case Field(_, _) => TypesMember(types, edits[1..], typ);
      }
    }
  }

  /** Rerun on their own result, edits can only append types behind it for a while. */
  lemma {:induction false} TypesRerun(result: seq<string>, extra: seq<string>, edits: seq<Edit>) returns (left: seq<string>)
    requires forall e <- edits :: e.Remove? ==> e.typ !in result
    requires forall t <- extra :: t !in result
    ensures TypesAfter(result + extra, edits) == result + left
    ensures forall t <- left :: t !in result
    decreases |edits|
  {
    if edits == [] {
      left := extra;
    } else {
      var next := extra;
      match edits[0] {
        case Set(t, _, _) =>
          next := if t in result + extra then extra else extra + [t];
          assert AddType(result + extra, t) == result + next;
        case Remove(t) =>
          next := DropType(extra, t);
          DropConcat(result, extra, t);
          DropMembers(result, t);
          DropMembers(extra, t);
        case Field(_, _) =>
      }
      left := TypesRerun(result, next, edits[1..]);
    }
  }

  lemma TypesIdempotent(types: seq<string>, edits: seq<Edit>)
    requires Steady(edits)
    ensures TypesAfter(TypesAfter(types, edits), edits) == TypesAfter(types, edits)
  {
    var result := TypesAfter(types, edits);
    forall i | 0 <= i < |edits| && edits[i].Remove?
      ensures edits[i].typ !in result
    {
      NetRemoved(edits, i);
      TypesMember(types, edits, edits[i].typ);
    }
    var left := TypesRerun(result, [], edits);
    assert result + [] == result;
    HeadIsMember(left);
    if left != [] {
      TypesMember(result, edits, left[0]);
      TypesMember(types, edits, left[0]);
    }
  }

  function LastField(edits: seq<Edit>, key: string): Option<string> {
    if edits == [] then None
    else
      var rest := LastField(edits[1..], key);
      if rest.Some? then rest
      else if edits[0].Field? && edits[0].key == key then Some(edits[0].value) else None
  }

  lemma {:induction false} FieldsPointwise(fields: map<string, string>, edits: seq<Edit>, key: string)
    ensures
      var after := FieldsAfter(fields, edits);
      var last := LastField(edits, key);
      if last.Some? then key in after && after[key] == last.value
      else (key in after <==> key in fields) && (key in fields ==> after[key] == fields[key])
    decreases |edits|
  {
    if edits != [] {
      FieldsPointwise(if edits[0].Field? then fields[edits[0].key := edits[0].value] else fields, edits[1..], key);
    }
  }

  lemma FieldsIdempotent(fields: map<string, string>, edits: seq<Edit>)
    ensures FieldsAfter(FieldsAfter(fields, edits), edits) == FieldsAfter(fields, edits)
  {
    var once := FieldsAfter(fields, edits);
    var twice := FieldsAfter(once, edits);
    forall key
      ensures (key in twice <==> key in once) && (key in once ==> twice[key] == once[key])
    {
      FieldsPointwise(fields, edits, key);
      FieldsPointwise(once, edits, key);
    }
  }

  lemma {:induction false} KeptFind(base: seq<Condition>, conds: seq<Condition>, typ: string)
    ensures Types(KeepAll(base, conds)) == Types(conds)
    ensures Unique(conds) ==> Unique(KeepAll(base, conds))
    ensures
      var f := Find(conds, typ);
      Find(KeepAll(base, conds), typ) == if f.Some? then Some(Kept(base, f.value)) else None
  {
    if conds != [] {
      var rest := KeepAll(base, conds[1..]);
      assert KeepAll(base, conds)[1..] == rest;
      KeptFind(base, conds[1..], typ);
    }
  }

  /** Lists with distinct types are equal but for messages when they agree type by type. */
  lemma {:induction false} SameButMessages(a: seq<Condition>, b: seq<Condition>)
    requires Types(a) == Types(b) && Unique(a)
    requires forall typ <- Types(a) ::
      Find(a, typ).Some? && Find(b, typ).Some? && Find(a, typ).value.(message := "") == Find(b, typ).value.(message := "")
    ensures WithoutMessages(a) == WithoutMessages(b)
    decreases |a|
  {
    if a != [] {
      assert a[0].typ in Types(a);
      assert a[0].typ == b[0].typ && Types(a[1..]) == Types(b[1..]) by {
        assert Types(a)[1..] == Types(a[1..]) && Types(b)[1..] == Types(b[1..]);
      }
      forall typ <- Types(a[1..])
        ensures Find(a[1..], typ) == Find(a, typ) && Find(b[1..], typ) == Find(b, typ)
      {
        assert typ in Types(a);
      }
      SameButMessages(a[1..], b[1..]);
    }
  }

  lemma {:induction false} SameGivesFind(a: seq<Condition>, b: seq<Condition>, typ: string)
    requires WithoutMessages(a) == WithoutMessages(b)
    ensures Types(a) == Types(b)
    ensures Find(a, typ).Some? <==> Find(b, typ).Some?
    ensures Find(a, typ).Some? ==> Find(a, typ).value.(message := "") == Find(b, typ).value.(message := "")
    decreases |a|
  {
    assert |a| == |WithoutMessages(a)| == |b|;
    if a != [] {
      assert WithoutMessages(a)[0] == WithoutMessages(b)[0];
      assert WithoutMessages(a[1..]) == WithoutMessages(a)[1..] && WithoutMessages(b[1..]) == WithoutMessages(b)[1..];
      SameGivesFind(a[1..], b[1..], typ);
    }
  }

  /** Whether a pass writes does not depend on its messages or its clock: it
      writes exactly unless its edits leave the stored status as it is. */
  lemma WritesUnlessFixed(s: Status, edits: seq<Edit>, generation: int, draws: seq<Draw>)
    requires |draws| == |edits| && Unique(s.conditions)
    ensures Writes(s, edits, generation, draws) <==> !Fixed(s, edits, generation)
  {
    var cur := ApplyAll(s, edits, generation, draws);
    var prop := Proposed(s, edits, generation, draws);
    AppliedTypes(s, edits, generation, draws);
    KeptFind(s.conditions, cur.conditions, "");
    if Fixed(s, edits, generation) {
      forall typ <- Types(s.conditions)
        ensures
          Find(s.conditions, typ).Some? && Find(prop.conditions, typ).Some? &&
          Find(s.conditions, typ).value.(message := "") == Find(prop.conditions, typ).value.(message := "")
      {
        FindTypes(s.conditions, typ);
        TypesMember(Types(s.conditions), edits, typ);
        AppliedFind(s, edits, generation, draws, typ);
        KeptFind(s.conditions, cur.conditions, typ);
      }
      SameButMessages(s.conditions, prop.conditions);
    } else if !Writes(s, edits, generation, draws) {
      SameGivesFind(s.conditions, prop.conditions, "");
      forall typ <- Types(s.conditions)
        ensures NetOf(edits, typ).Put? ==>
          var c := Find(s.conditions, typ);
          c.Some? && c.value.status == NetOf(edits, typ).status && c.value.reason == NetOf(edits, typ).reason &&
          c.value.generation == generation
      {
        SameGivesFind(s.conditions, prop.conditions, typ);
        AppliedFind(s, edits, generation, draws, typ);
        KeptFind(s.conditions, cur.conditions, typ);
      }
      assert false;
    }
  }

  /** After one pass, the same edits find nothing to write. */
  lemma StoredIsFixed(s: Status, edits: seq<Edit>, generation: int, draws: seq<Draw>)
    requires |draws| == |edits| && Unique(s.conditions) && Steady(edits)
    ensures Fixed(Stored(s, edits, generation, draws), edits, generation)
    ensures Unique(Stored(s, edits, generation, draws).conditions)
  {
    WritesUnlessFixed(s, edits, generation, draws);
    if Writes(s, edits, generation, draws) {
      var cur := ApplyAll(s, edits, generation, draws);
      var prop := Proposed(s, edits, generation, draws);
      AppliedTypes(s, edits, generation, draws);
      KeptFind(s.conditions, cur.conditions, "");
      TypesIdempotent(Types(s.conditions), edits);
      FieldsIdempotent(s.fields, edits);
      forall typ <- Types(prop.conditions)
        ensures NetOf(edits, typ).Put? ==>
          var c := Find(prop.conditions, typ);
          c.Some? && c.value.status == NetOf(edits, typ).status && c.value.reason == NetOf(edits, typ).reason &&
          c.value.generation == generation
      {
        AppliedFind(s, edits, generation, draws, typ);
        KeptFind(s.conditions, cur.conditions, typ);
      }
    }
  }

  function Writings(s: Status, edits: seq<Edit>, generation: int, passes: seq<seq<Draw>>): nat
    requires forall draws <- passes :: |draws| == |edits|
    decreases |passes|
  {
    if passes == [] then 0
    else (if Writes(s, edits, generation, passes[0]) then 1 else 0)
         + Writings(Stored(s, edits, generation, passes[0]), edits, generation, passes[1..])
  }

  lemma {:induction false} FixedNeverWrites(s: Status, edits: seq<Edit>, generation: int, passes: seq<seq<Draw>>)
    requires forall draws <- passes :: |draws| == |edits|
    requires Unique(s.conditions) && Fixed(s, edits, generation)
    ensures Writings(s, edits, generation, passes) == 0
    decreases |passes|
  {
    if passes != [] {
      WritesUnlessFixed(s, edits, generation, passes[0]);
      FixedNeverWrites(s, edits, generation, passes[1..]);
    }
  }

  /** However many passes make the same edits, whatever messages they carry and
      whenever they run: at most one of them writes status, the first. */
  lemma Quiescent(s: Status, edits: seq<Edit>, generation: int, passes: seq<seq<Draw>>)
    requires forall draws <- passes :: |draws| == |edits|
    requires Unique(s.conditions) && Steady(edits)
    ensures Writings(s, edits, generation, passes) <= 1
  {
    if passes != [] {
      StoredIsFixed(s, edits, generation, passes[0]);
      FixedNeverWrites(Stored(s, edits, generation, passes[0]), edits, generation, passes[1..]);
    }
  }

  /** Pass by pass: after one, the same edits write nothing and leave everything. */
  lemma SecondPassQuiet(s: Status, edits: seq<Edit>, generation: int, first: seq<Draw>, second: seq<Draw>)
    requires |first| == |edits| == |second| && Unique(s.conditions) && Steady(edits)
    ensures
      var t := Stored(s, edits, generation, first);
      !ChangedBeyondMessages(t, Proposed(t, edits, generation, second)) && Stored(t, edits, generation, second) == t
  {
    StoredIsFixed(s, edits, generation, first);
    WritesUnlessFixed(Stored(s, edits, generation, first), edits, generation, second);
  }

  /** A stored condition's transition time moves only in a write that changes its status. */
  lemma TransitionTimesHonest(s: Status, edits: seq<Edit>, generation: int, draws: seq<Draw>, typ: string)
    requires |draws| == |edits|
    ensures
      var before := Find(s.conditions, typ);
      var after := Find(Stored(s, edits, generation, draws).conditions, typ);
      before.Some? && after.Some? && before.value.status == after.value.status ==> before.value.since == after.value.since
  {
    var cur := ApplyAll(s, edits, generation, draws);
    KeptFind(s.conditions, cur.conditions, typ);
    FindTypes(cur.conditions, typ);
  }

  /** A condition applied within a pass at `now` has the time it had before, if its
      status is still or again the one it had, or that of the pass. */
  predicate Dated(before: Option<Condition>, after: Option<Condition>, now: int) {
    after.Some? ==>
      after.value.since == now ||
      (before.Some? && before.value.status == after.value.status && before.value.since == after.value.since)
  }

  lemma {:induction false} AppliedDated(s: Status, origin: Option<Condition>, edits: seq<Edit>, generation: int, draws: seq<Draw>, typ: string, now: int)
    requires |draws| == |edits| && (forall draw <- draws :: draw.1 == now)
    requires Dated(origin, Find(s.conditions, typ), now)
    ensures Dated(origin, Find(ApplyAll(s, edits, generation, draws).conditions, typ), now)
    decreases |edits|
  {
    if edits != [] {
      match edits[0] {
        case Set(t, status, reason) =>
          assert draws[0] in draws;
          SetFind(s.conditions, Condition(t, status, reason, draws[0].0, generation, draws[0].1), typ);
        case Remove(t) => RemoveFind(s.conditions, t, typ);
        case Field(_, _) =>
      }
      AppliedDated(Apply(s, edits[0], generation, draws[0]), origin, edits[1..], generation, draws[1..], typ, now);
    }
  }

  /** Every condition a pass at `now` leaves stored has the time of the pass, unless
      it was stored before with the same status: then it has the time it had. */
  lemma TransitionTimesExactly(s: Status, edits: seq<Edit>, generation: int, draws: seq<Draw>, typ: string, now: int)
    requires |draws| == |edits| && (forall draw <- draws :: draw.1 == now)
    ensures
      var before := Find(s.conditions, typ);
      var after := Find(Stored(s, edits, generation, draws).conditions, typ);
      after.Some? ==>
        after.value.since ==
        if before.Some? && before.value.status == after.value.status then before.value.since else now
  {
    var cur := ApplyAll(s, edits, generation, draws);
    AppliedDated(s, Find(s.conditions, typ), edits, generation, draws, typ, now);
    KeptFind(s.conditions, cur.conditions, typ);
    FindTypes(cur.conditions, typ);
  }
}
