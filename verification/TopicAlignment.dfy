/** Bringing an existing Kafka topic to the requested shape, with the memory of
    config keys that a broker accepts but never reports. */
module TopicAlignment {
  import opened Wrappers
  import Sorting

  /** A topic at the broker.  The values of `hidden` keys are never reported. */
  datatype Topic = Topic(partitions: int, rf: int, values: map<string, string>, hidden: set<string>)

  /** What one pass reads of it. */
  datatype View = View(partitions: int, rf: int, configs: map<string, string>)

  function Reported(t: Topic): View {
    View(t.partitions, t.rf, t.values - t.hidden)
  }

  datatype Id = Id(namespace: string, buckety: string)

  /** Counts of 0 mean "not requested". */
  datatype Request = Request(id: Id, topic: string, parts: int, rf: int, cfgs: map<string, string>)

  datatype Reply = Acknowledged | Rejected | CallFails

  datatype Outcome = Aligned | Drift | Failed

  datatype Change =
    | PartitionsAdded(before: int, after: int)
    | ConfigChanged(key: string, was: string, now: string)

  /** Per topic and key, the value last acknowledged. */
  type Accepted = map<string, map<string, string>>

  function Known(accepted: Accepted, topic: string): map<string, string> {
    if topic in accepted then accepted[topic] else map[]
  }

  // ---- Parameters ----

  const CONFIG := "config."

  /** strconv.ParseInt with 32 and 16 bits, and strings.TrimSpace. */
  datatype Text = Text(parse32: string -> Option<int>, parse16: string -> Option<int>, trim: string -> string)

  datatype Shape = Shape(parts: int, rf: int, cfgs: map<string, string>)

  predicate Translatable(params: map<string, string>, k: string, text: Text)
    requires k in params
  {
    || (k == "partitions" && text.parse32(params[k]).Some?)
    || (k == "replicationFactor" && text.parse16(params[k]).Some?)
    || CONFIG <= k
  }

  function NumberOr0(params: map<string, string>, keys: set<string>, k: string, parse: string -> Option<int>): int {
    if k in keys && k in params && parse(params[k]).Some? then parse(params[k]).value else 0
  }

  /** What the parameters among `keys` ask for. */
  ghost predicate Asks(params: map<string, string>, keys: set<string>, text: Text, shape: Shape) {
    && shape.parts == NumberOr0(params, keys, "partitions", text.parse32)
    && shape.rf == NumberOr0(params, keys, "replicationFactor", text.parse16)
    && (forall c :: c in shape.cfgs <==> CONFIG + c in keys)
    && (forall c <- shape.cfgs :: CONFIG + c in params && shape.cfgs[c] == text.trim(params[CONFIG + c]))
  }

  lemma ConfigKey(k: string, c: string)
    ensures CONFIG + c == k <==> CONFIG <= k && c == k[|CONFIG|..]
  {
    if CONFIG + c == k {
      assert CONFIG <= k;
    }
  }

  lemma NotConfigKeys()
    ensures !(CONFIG <= "partitions") && !(CONFIG <= "replicationFactor")
  {
    assert CONFIG[0] == 'c' && "partitions"[0] == 'p' && "replicationFactor"[0] == 'r';
  }

  method TranslateParameters(params: map<string, string>, text: Text) returns (r: Option<Shape>)
    ensures r.Some? <==> forall k <- params :: Translatable(params, k, text)
    ensures r.Some? ==> Asks(params, params.Keys, text, r.value)
    // in the parameters' own names
    ensures r.Some? <==> forall k <- params ::
      || (k == "partitions" && text.parse32(params[k]).Some?)
      || (k == "replicationFactor" && text.parse16(params[k]).Some?)
      || "config." <= k
    ensures r.Some? ==>
      && (if "partitions" in params then text.parse32(params["partitions"]) == Some(r.value.parts) else r.value.parts == 0)
      && (if "replicationFactor" in params then text.parse16(params["replicationFactor"]) == Some(r.value.rf) else r.value.rf == 0)
      && (forall c :: c in r.value.cfgs <==> "config." + c in params)
      && (forall c <- r.value.cfgs :: r.value.cfgs[c] == text.trim(params["config." + c]))
  {
    NotConfigKeys();
    var shape := Shape(0, 0, map[]);
    var todo := params.Keys;
    while todo != {}
      invariant todo <= params.Keys
      invariant forall k <- params.Keys - todo :: Translatable(params, k, text)
      invariant Asks(params, params.Keys - todo, text, shape)
    {
      var k :| k in todo;
      todo := todo - {k};
      forall c ensures CONFIG + c == k <==> CONFIG <= k && c == k[|CONFIG|..] {
        ConfigKey(k, c);
      }
      if k == "partitions" {
        var n := text.parse32(params[k]);
        if n.None? {
          return None;
        }
        shape := shape.(parts := n.value);
      } else if k == "replicationFactor" {
        var n := text.parse16(params[k]);
        if n.None? {
          return None;
        }
        shape := shape.(rf := n.value);
      } else if CONFIG <= k {
        shape := shape.(cfgs := shape.cfgs[k[|CONFIG|..] := text.trim(params[k])]);
      } else {
        return None;
      }
    }
    assert params.Keys - todo == params.Keys;
    return Some(shape);
  }

  // ---- What a pass has to do ----

  predicate Shrinks(req: Request, view: View) {
    0 < req.parts < view.partitions
  }

  predicate Grows(req: Request, view: View) {
    req.parts > 0 && req.parts > view.partitions
  }

  predicate ReplicationDrifts(req: Request, view: View) {
    req.rf > 0 && view.rf != 0 && view.rf != req.rf
  }

  /** A requested key is to be set when it is reported with another value, or not
      reported and last acknowledged with another value or none. */
  predicate Needs(req: Request, view: View, accepted: Accepted, k: string)
    requires k in req.cfgs
  {
    if k in view.configs then view.configs[k] != req.cfgs[k]
    else !(k in Known(accepted, req.topic) && Known(accepted, req.topic)[k] == req.cfgs[k])
  }

  function Needed(req: Request, view: View, accepted: Accepted): set<string> {
    set k | k in req.cfgs && Needs(req, view, accepted, k)
  }

  /** Where the pass stops before it looks at configs, if it does. */
  function Stop(req: Request, view: View, grow: Reply): Option<Outcome> {
    if Shrinks(req, view) then Some(Drift)
    else if Grows(req, view) && grow.CallFails? then Some(Failed)
    else if ReplicationDrifts(req, view) then Some(Drift)
    else None
  }

  function OutcomeOf(req: Request, view: View, accepted: Accepted, grow: Reply, alter: Reply): Outcome {
    if Stop(req, view, grow).Some? then Stop(req, view, grow).value
    else if Needed(req, view, accepted) != {} && !alter.Acknowledged? then Failed
    else Aligned
  }

  predicate GrowthMade(req: Request, view: View, grow: Reply) {
    Grows(req, view) && grow.Acknowledged?
  }

  /** The keys acknowledged by the pass. */
  function Altered(req: Request, view: View, accepted: Accepted, grow: Reply, alter: Reply): set<string> {
    if OutcomeOf(req, view, accepted, grow, alter).Aligned? then Needed(req, view, accepted) else {}
  }

  /** The requested values of some keys. */
  function Values(req: Request, keys: set<string>): map<string, string> {
    map k | k in keys && k in req.cfgs :: req.cfgs[k]
  }

  function Remembered(accepted: Accepted, req: Request, keys: set<string>): Accepted {
    if keys == {} then accepted else accepted[req.topic := Known(accepted, req.topic) + Values(req, keys)]
  }

  /** Sorted, each of the keys once. */
  ghost predicate Enumerates(names: seq<string>, keys: set<string>) {
    Sorting.Sorted(names) && multiset(names) == multiset(keys)
  }

  function ChangeOf(req: Request, view: View, k: string): Change
    requires k in req.cfgs
  {
    ConfigChanged(k, if k in view.configs then view.configs[k] else "", req.cfgs[k])
  }

  function ConfigChanges(req: Request, view: View, names: seq<string>): seq<Change>
    requires forall k <- names :: k in req.cfgs
  {
    seq(|names|, i requires 0 <= i < |names| => ChangeOf(req, view, names[i]))
  }

  /** The topic after the pass. */
  function After(t: Topic, req: Request, view: View, accepted: Accepted, grow: Reply, alter: Reply): Topic {
    t.(partitions := if GrowthMade(req, view, grow) then req.parts else t.partitions,
       values := t.values + Values(req, Altered(req, view, accepted, grow, alter)))
  }

  /** Exactly this topic changed, into t. */
  predicate Became(before: map<string, Topic>, after: map<string, Topic>, topic: string, t: Topic) {
    topic in after && after[topic] == t && after - {topic} == before - {topic}
  }

  lemma BecameExactly(before: map<string, Topic>, after: map<string, Topic>, topic: string, t: Topic)
    requires Became(before, after, topic, t)
    ensures after == before[topic := t]
  {
    forall k | k != topic ensures (k in after <==> k in before) && (k in after ==> after[k] == before[k]) {
      assert k in after - {topic} <==> k in before - {topic};
      assert k in after ==> (after - {topic})[k] == (before - {topic})[k];
    }
  }

  function Elements(names: seq<string>): set<string> {
    set k | k in names
  }

  // ---- Counters ----

  function Count<K>(m: map<K, int>, k: K): int {
    if k in m then m[k] else 0
  }

  /** Exactly one counter moved, by n. */
  ghost predicate Counted<K(!new)>(before: map<K, int>, after: map<K, int>, k: K, n: int) {
    forall x :: Count(after, x) == Count(before, x) + if x == k then n else 0
  }

  /** The counters of exactly these keys of the topic moved, by one each. */
  ghost predicate KeysCounted(before: map<(Id, string, string), int>, after: map<(Id, string, string), int>, req: Request, keys: set<string>) {
    forall x :: Count(after, x) == Count(before, x) + if x.0 == req.id && x.1 == req.topic && x.2 in keys then 1 else 0
  }

  /** A counter that is new starts at zero; any other goes on from where it was. */
  lemma CountersExactly(
      before: map<(Id, string), int>, after: map<(Id, string), int>, k: (Id, string), n: int,
      was: map<(Id, string, string), int>, now: map<(Id, string, string), int>, req: Request, keys: set<string>, x: (Id, string, string))
    requires Counted(before, after, k, n) && k in after
    requires KeysCounted(was, now, req, keys) && x in now
    ensures after[k] == n + if k in before then before[k] else 0
    ensures forall other <- after :: other != k ==> after[other] == if other in before then before[other] else 0
    ensures now[x] == (if x in was then was[x] else 0) + if x.0 == req.id && x.1 == req.topic && x.2 in keys then 1 else 0
  {
    assert Count(after, k) == Count(before, k) + n;
    assert Count(now, x) == now[x];
    forall other | other in after && other != k ensures after[other] == if other in before then before[other] else 0 {
      assert Count(after, other) == Count(before, other);
    }
  }

  predicate Exported(parts: map<(Id, string), int>, configs: map<(Id, string, string), int>, req: Request) {
    (req.id, req.topic) in parts && forall k <- req.cfgs :: (req.id, req.topic, k) in configs
  }

  // ---- The driver ----

  class Driver {
    var topics: map<string, Topic>
    var accepted: Accepted
    var partitionsAdded: map<(Id, string), int>
    var configChanges: map<(Id, string, string), int>

    constructor (broker: map<string, Topic>)
      ensures topics == broker && accepted == map[] && partitionsAdded == map[] && configChanges == map[]
    {
      topics, accepted, partitionsAdded, configChanges := broker, map[], map[], map[];
    }

    predicate AcceptedUnreported(topic: string, key: string, value: string)
      reads this
    {
      topic in accepted && key in accepted[topic] && accepted[topic][key] == value
    }

    method RememberAccepted(req: Request, names: seq<string>)
      requires names != []
      requires forall k <- names :: k in req.cfgs
      modifies this`accepted
      ensures accepted == Remembered(old(accepted), req, Elements(names))
    {
      var keys := Known(accepted, req.topic);
      for i := 0 to |names|
        invariant keys == Known(accepted, req.topic) + Values(req, Elements(names[..i]))
      {
        assert names[..i + 1] == names[..i] + [names[i]];
        assert Elements(names[..i + 1]) == Elements(names[..i]) + {names[i]};
        keys := keys[names[i] := req.cfgs[names[i]]];
      }
      assert names[..|names|] == names && names[0] in Elements(names);
      accepted := accepted[req.topic := keys];
    }

    method ForgetAccepted(topic: string)
      modifies this`accepted
      ensures accepted == old(accepted) - {topic}
    {
      accepted := accepted - {topic};
    }

    /** The keys to set, in whatever order the map yields them. */
    method Delta(req: Request, view: View) returns (names: seq<string>)
      ensures multiset(names) == multiset(Needed(req, view, accepted))
    {
      names := [];
      var todo := req.cfgs.Keys;
      while todo != {}
        invariant todo <= req.cfgs.Keys
        invariant multiset(names) == multiset(Needed(req, view, accepted) - todo)
      {
        var k :| k in todo;
        OneLess(Needed(req, view, accepted), todo, k);
        todo := todo - {k};
        if k in view.configs && view.configs[k] == req.cfgs[k] {
          continue;
        }
        if k !in view.configs && AcceptedUnreported(req.topic, k, req.cfgs[k]) {
          continue;
        }
        names := names + [k];
      }
      assert Needed(req, view, accepted) - todo == Needed(req, view, accepted);
    }

    /** Every counter of the request exists before it first moves. */
    method Export(req: Request)
      modifies this`partitionsAdded, this`configChanges
      ensures Counted(old(partitionsAdded), partitionsAdded, (req.id, req.topic), 0)
      ensures KeysCounted(old(configChanges), configChanges, req, {})
      ensures Exported(partitionsAdded, configChanges, req)
    {
      partitionsAdded := partitionsAdded[(req.id, req.topic) := Count(partitionsAdded, (req.id, req.topic))];
      ghost var parts := partitionsAdded;
      var todo := req.cfgs.Keys;
      while todo != {}
        invariant KeysCounted(old(configChanges), configChanges, req, {})
        invariant partitionsAdded == parts
        invariant todo <= req.cfgs.Keys && forall k <- req.cfgs.Keys - todo :: (req.id, req.topic, k) in configChanges
      {
        var k :| k in todo;
        todo := todo - {k};
        configChanges := configChanges[(req.id, req.topic, k) := Count(configChanges, (req.id, req.topic, k))];
      }
    }

    method CountChanges(req: Request, names: seq<string>)
      requires forall i, j | 0 <= i < j < |names| :: names[i] != names[j]
      requires forall k <- names :: (req.id, req.topic, k) in configChanges
      modifies this`configChanges
      ensures KeysCounted(old(configChanges), configChanges, req, Elements(names))
      ensures configChanges.Keys == old(configChanges).Keys
    {
      for i := 0 to |names|
        invariant KeysCounted(old(configChanges), configChanges, req, Elements(names[..i]))
        invariant configChanges.Keys == old(configChanges).Keys
      {
        assert names[..i + 1] == names[..i] + [names[i]];
        assert names[i] !in names[..i];
        assert Elements(names[..i + 1]) == Elements(names[..i]) + {names[i]};
        var x := (req.id, req.topic, names[i]);
        configChanges := configChanges[x := configChanges[x] + 1];
      }
      assert names[..|names|] == names;
    }

    /** Partitions, which only grow, and the replication factor, which cannot change. */
    method AlignShape(req: Request, view: View, grow: Reply) returns (stop: Option<Outcome>, changes: seq<Change>)
      requires req.topic in topics && (req.id, req.topic) in partitionsAdded
      modifies this`topics, this`partitionsAdded
      ensures stop == Stop(req, view, grow) && changes == Growth(req, view, grow)
      ensures Became(old(topics), topics, req.topic, old(topics)[req.topic].(
                partitions := if GrowthMade(req, view, grow) then req.parts else old(topics)[req.topic].partitions))
      ensures partitionsAdded.Keys == old(partitionsAdded).Keys
      ensures Counted(old(partitionsAdded), partitionsAdded, (req.id, req.topic), Added(req, view, grow))
    {
      stop, changes := None, [];
      if req.parts > 0 && view.partitions != req.parts {
        if req.parts < view.partitions {
          return Some(Drift), changes;
        }
        if grow.CallFails? {
          return Some(Failed), changes;
        }
        if grow.Acknowledged? {
          topics := topics[req.topic := topics[req.topic].(partitions := req.parts)];
          partitionsAdded := partitionsAdded[(req.id, req.topic) := partitionsAdded[(req.id, req.topic)] + (req.parts - view.partitions)];
          changes := [PartitionsAdded(view.partitions, req.parts)];
        }
      }
      if req.rf > 0 && view.rf != 0 && view.rf != req.rf {
        stop := Some(Drift);
      }
    }

    /** One incremental alter of the needed keys, acknowledged by the broker. */
    method Acknowledge(req: Request, view: View, alters: seq<string>) returns (names: seq<string>)
      requires req.topic in topics && alters != [] && Exported(partitionsAdded, configChanges, req)
      requires multiset(alters) == multiset(Needed(req, view, accepted))
      modifies this`topics, this`accepted, this`configChanges
      ensures Enumerates(names, Needed(req, view, old(accepted))) && forall k <- names :: k in req.cfgs
      ensures accepted == Remembered(old(accepted), req, Needed(req, view, old(accepted)))
      ensures Became(old(topics), topics, req.topic, old(topics)[req.topic].(
                values := old(topics)[req.topic].values + Values(req, Needed(req, view, old(accepted)))))
      ensures configChanges.Keys == old(configChanges).Keys
      ensures KeysCounted(old(configChanges), configChanges, req, Needed(req, view, old(accepted)))
    {
      names := Sorted(req, view, alters);
      topics := topics[req.topic := topics[req.topic].(values := topics[req.topic].values + Values(req, Elements(names)))];
      RememberAccepted(req, names);
      CountChanges(req, names);
    }

    method Sorted(req: Request, view: View, alters: seq<string>) returns (names: seq<string>)
      requires alters != [] && multiset(alters) == multiset(Needed(req, view, accepted))
      ensures Enumerates(names, Needed(req, view, accepted)) && names != [] && Elements(names) == Needed(req, view, accepted)
      ensures forall k <- names :: k in req.cfgs
      ensures forall i, j | 0 <= i < j < |names| :: names[i] != names[j]
    {
      names := Sorting.Sort(alters);
      Sorting.SortSorts(alters);
      SameElements(names, Needed(req, view, accepted));
      assert |names| == |multiset(names)| == |multiset(alters)| == |alters|;
      assert forall k <- names :: k in Elements(names);
    }

    /** One pass.  Counters and reported changes move by exactly what the broker
        acknowledged, in one order whatever order the maps yield. */
    method AlignTopic(req: Request, view: View, grow: Reply, alter: Reply)
      returns (out: Outcome, changes: seq<Change>, ghost names: seq<string>)
      requires req.topic in topics
      modifies this
      ensures out == OutcomeOf(req, view, old(accepted), grow, alter)
      ensures Enumerates(names, Altered(req, view, old(accepted), grow, alter)) && forall k <- names :: k in req.cfgs
      ensures changes == Growth(req, view, grow) + ConfigChanges(req, view, names)
      ensures accepted == Remembered(old(accepted), req, Altered(req, view, old(accepted), grow, alter))
      ensures topics == old(topics)[req.topic := After(old(topics)[req.topic], req, view, old(accepted), grow, alter)]
      ensures Counted(old(partitionsAdded), partitionsAdded, (req.id, req.topic), Added(req, view, grow))
      ensures KeysCounted(old(configChanges), configChanges, req, Altered(req, view, old(accepted), grow, alter))
      ensures Exported(partitionsAdded, configChanges, req)
    {
      out, changes, names := Align(req, view, grow, alter);
      BecameExactly(old(topics), topics, req.topic, After(old(topics)[req.topic], req, view, old(accepted), grow, alter));
    }

    /** The pass, step by step. */
    method Align(req: Request, view: View, grow: Reply, alter: Reply)
      returns (out: Outcome, changes: seq<Change>, ghost names: seq<string>)
      requires req.topic in topics
      modifies this
      ensures out == OutcomeOf(req, view, old(accepted), grow, alter)
      ensures Enumerates(names, Altered(req, view, old(accepted), grow, alter)) && forall k <- names :: k in req.cfgs
      ensures changes == Growth(req, view, grow) + ConfigChanges(req, view, names)
      ensures accepted == Remembered(old(accepted), req, Altered(req, view, old(accepted), grow, alter))
      ensures Became(old(topics), topics, req.topic, After(old(topics)[req.topic], req, view, old(accepted), grow, alter))
      ensures Counted(old(partitionsAdded), partitionsAdded, (req.id, req.topic), Added(req, view, grow))
      ensures KeysCounted(old(configChanges), configChanges, req, Altered(req, view, old(accepted), grow, alter))
      ensures Exported(partitionsAdded, configChanges, req)
    {
      changes, names := [], [];
      Export(req);
      AlteredCases(req, view, accepted, grow, alter);
      NothingAltered(topics[req.topic], req);
      var stop;
      stop, changes := AlignShape(req, view, grow);
      if stop.Some? {
        out := stop.value;
        return;
      }
      var altered, sorted := Alter(req, view, alter);
      var reported := ReportConfigs(req, view, sorted);
      out, names, changes := altered, sorted, changes + reported;
    }

    /** The config delta. */
    method Alter(req: Request, view: View, alter: Reply) returns (out: Outcome, names: seq<string>)
      requires req.topic in topics && Exported(partitionsAdded, configChanges, req)
      modifies this`topics, this`accepted, this`configChanges
      ensures out == if Needed(req, view, old(accepted)) != {} && !alter.Acknowledged? then Failed else Aligned
      ensures
        var keys := if out.Aligned? then Needed(req, view, old(accepted)) else {};
        && Enumerates(names, keys) && (forall k <- names :: k in req.cfgs)
        && accepted == Remembered(old(accepted), req, keys)
        && Became(old(topics), topics, req.topic, old(topics)[req.topic].(values := old(topics)[req.topic].values + Values(req, keys)))
        && configChanges.Keys == old(configChanges).Keys
        && KeysCounted(old(configChanges), configChanges, req, keys)
    {
      NothingAltered(topics[req.topic], req);
      var alters := Delta(req, view);
      if |alters| == 0 {
        NoneNeeded(alters, Needed(req, view, accepted));
        return Aligned, [];
      }
      SomeNeeded(alters, Needed(req, view, accepted));
      if !alter.Acknowledged? {
        return Failed, [];
      }
      names := Acknowledge(req, view, alters);
      out := Aligned;
    }
  }

  function Growth(req: Request, view: View, grow: Reply): seq<Change> {
    if GrowthMade(req, view, grow) then [PartitionsAdded(view.partitions, req.parts)] else []
  }

  function Added(req: Request, view: View, grow: Reply): int {
    if GrowthMade(req, view, grow) then req.parts - view.partitions else 0
  }

  lemma AlteredCases(req: Request, view: View, accepted: Accepted, grow: Reply, alter: Reply)
    ensures
      var out, keys := OutcomeOf(req, view, accepted, grow, alter), Altered(req, view, accepted, grow, alter);
      match Stop(req, view, grow)
      case Some(why) => out == why && keys == {}
      case None =>
        && out == (if Needed(req, view, accepted) != {} && !alter.Acknowledged? then Failed else Aligned)
        && keys == if out.Aligned? then Needed(req, view, accepted) else {}
  {
  }

  /** How a pass ends: Drift when partitions would have to shrink or the replication
      factor to change; Failed when a call fails before that; and a rejected growth
      is passed over. */
  lemma OutcomeExactly(req: Request, view: View, accepted: Accepted, grow: Reply, alter: Reply)
    ensures
      var out, keys := OutcomeOf(req, view, accepted, grow, alter), Altered(req, view, accepted, grow, alter);
      var shrinks, grows := 0 < req.parts < view.partitions, req.parts > 0 && req.parts > view.partitions;
      var replicates := req.rf > 0 && view.rf != 0 && view.rf != req.rf;
      && (out.Drift? <==> shrinks || (replicates && !(grows && grow.CallFails?)))
      && (out.Failed? <==> (grows && grow.CallFails?) || (!shrinks && !replicates && Needed(req, view, accepted) != {} && !alter.Acknowledged?))
      && keys == if out.Aligned? then Needed(req, view, accepted) else {}
  {
  }

  /** What a pass makes of the topic: partitions only ever grow, to the requested
      count; a requested key is set exactly when it is reported with another value,
      or not reported and not last acknowledged with this one; anything else stays. */
  lemma AfterExactly(t: Topic, req: Request, view: View, accepted: Accepted, grow: Reply, alter: Reply, k: string)
    ensures
      var t' := After(t, req, view, accepted, grow, alter);
      var sets :=
        && OutcomeOf(req, view, accepted, grow, alter).Aligned? && k in req.cfgs
        && (if k in view.configs then view.configs[k] != req.cfgs[k]
            else req.topic !in accepted || k !in accepted[req.topic] || accepted[req.topic][k] != req.cfgs[k]);
      && t'.rf == t.rf && t'.hidden == t.hidden
      && t'.partitions == (if req.parts > 0 && req.parts > view.partitions && grow.Acknowledged? then req.parts else t.partitions)
      && (if sets then k in t'.values && t'.values[k] == req.cfgs[k]
          else (k in t'.values <==> k in t.values) && (k in t.values ==> t'.values[k] == t.values[k]))
      && (k in Altered(req, view, accepted, grow, alter) <==> sets)
  {
  }

  /** What a pass reports: the growth first, with both counts, then each altered key
      with the value reported before, empty if none was, and the new one. */
  lemma ReportExactly(req: Request, view: View, grow: Reply, names: seq<string>)
    requires forall k <- names :: k in req.cfgs
    ensures
      var grew := req.parts > 0 && req.parts > view.partitions && grow.Acknowledged?;
      var changes := Growth(req, view, grow) + ConfigChanges(req, view, names);
      && |changes| == (if grew then 1 else 0) + |names|
      && (grew ==> changes[0] == PartitionsAdded(view.partitions, req.parts))
      && Added(req, view, grow) == (if grew then req.parts - view.partitions else 0)
      && forall i | 0 <= i < |names| ::
           changes[(if grew then 1 else 0) + i] ==
           ConfigChanged(names[i], if names[i] in view.configs then view.configs[names[i]] else "", req.cfgs[names[i]])
  {
  }

  lemma NothingAltered(t: Topic, req: Request)
    ensures t.values + Values(req, {}) == t.values
  {
  }

  lemma OneLess(needed: set<string>, todo: set<string>, k: string)
    requires k in todo
    ensures multiset(needed - (todo - {k})) == multiset(needed - todo) + if k in needed then multiset{k} else multiset{}
  {
    assert needed - (todo - {k}) == (needed - todo) + if k in needed then {k} else {};
  }

  method ReportConfigs(req: Request, view: View, names: seq<string>) returns (changes: seq<Change>)
    requires forall k <- names :: k in req.cfgs
    ensures changes == ConfigChanges(req, view, names)
  {
    changes := [];
    for i := 0 to |names|
      invariant |changes| == i && forall j | 0 <= j < i :: changes[j] == ChangeOf(req, view, names[j])
    {
      var k := names[i];
      changes := changes + [ConfigChanged(k, if k in view.configs then view.configs[k] else "", req.cfgs[k])];
    }
  }

  lemma NoneNeeded(names: seq<string>, keys: set<string>)
    requires multiset(names) == multiset(keys) && names == []
    ensures keys == {}
  {
    forall k ensures k !in keys {
      assert k in keys <==> k in multiset(keys);
    }
  }

  lemma SomeNeeded(names: seq<string>, keys: set<string>)
    requires multiset(names) == multiset(keys) && names != []
    ensures keys != {}
  {
    assert names[0] in multiset(names);
  }

  lemma SameElements(names: seq<string>, keys: set<string>)
    requires multiset(names) == multiset(keys)
    ensures Elements(names) == keys
    ensures forall i, j | 0 <= i < j < |names| :: names[i] != names[j]
  {
    forall k ensures k in names <==> k in keys {
      assert k in names <==> k in multiset(names);
      assert k in keys <==> k in multiset(keys);
    }
    forall i, j | 0 <= i < j < |names| ensures names[i] != names[j] {
      CountsTwice(names, i, j);
    }
  }

  lemma CountsTwice(names: seq<string>, i: nat, j: nat)
    requires i < j < |names|
    ensures names[i] == names[j] ==> multiset(names)[names[i]] >= 2
  {
    assert names == names[..i] + [names[i]] + names[i + 1..j] + [names[j]] + names[j + 1..];
  }

  /** The reported order is one and the same whatever order the map yields. */
  lemma OrderIrrelevant(names: seq<string>, names': seq<string>, keys: set<string>)
    requires Enumerates(names, keys) && Enumerates(names', keys)
    ensures names == names'
  {
    Sorting.SortedUnique(names, names');
  }

  // ---- Convergence ----

  /** What a pass remembers once it is done. */
  function AcceptedAfter(accepted: Accepted, req: Request, view: View, grow: Reply, alter: Reply): Accepted {
    Remembered(accepted, req, Altered(req, view, accepted, grow, alter))
  }

  lemma RememberedAt(accepted: Accepted, req: Request, keys: set<string>, k: string)
    requires keys <= req.cfgs.Keys
    ensures
      var was, now := Known(accepted, req.topic), Known(Remembered(accepted, req, keys), req.topic);
      if k in keys then k in now && now[k] == req.cfgs[k] else (k in now <==> k in was) && (k in was ==> now[k] == was[k])
  {
  }

  /** One successful pass with every call acknowledged: each requested key is
      reported with its value, or not reported and remembered with it; partitions
      are as requested and not fewer.  The next identical pass changes nothing. */
  lemma Converges(t: Topic, req: Request, accepted: Accepted)
    requires OutcomeOf(req, Reported(t), accepted, Acknowledged, Acknowledged).Aligned?
    ensures
      var view := Reported(t);
      var t' := After(t, req, view, accepted, Acknowledged, Acknowledged);
      var known := AcceptedAfter(accepted, req, view, Acknowledged, Acknowledged);
      && t'.partitions >= t.partitions && (req.parts > 0 ==> t'.partitions == req.parts)
      && (forall k <- req.cfgs :: k in Reported(t').configs ==> Reported(t').configs[k] == req.cfgs[k])
      && (forall k <- req.cfgs :: k in Reported(t').configs ||
            (k in Known(known, req.topic) && Known(known, req.topic)[k] == req.cfgs[k]))
      && Needed(req, Reported(t'), known) == {} && !Grows(req, Reported(t'))
      && OutcomeOf(req, Reported(t'), known, Acknowledged, Acknowledged).Aligned?
  {
    var view := Reported(t);
    var keys := Altered(req, view, accepted, Acknowledged, Acknowledged);
    forall k | k in req.cfgs
      ensures var known := AcceptedAfter(accepted, req, view, Acknowledged, Acknowledged);
              var t' := After(t, req, view, accepted, Acknowledged, Acknowledged);
              && (k in Reported(t').configs ==> Reported(t').configs[k] == req.cfgs[k])
              && (k in Reported(t').configs || (k in Known(known, req.topic) && Known(known, req.topic)[k] == req.cfgs[k]))
    {
      RememberedAt(accepted, req, keys, k);
    }
  }

  // ---- A key the broker never reports ----

  datatype Step = Pass(req: Request, view: View, grow: Reply, alter: Reply) | Forget(topic: string)

  function Next(accepted: Accepted, step: Step): Accepted {
    match step
    case Pass(req, view, grow, alter) => AcceptedAfter(accepted, req, view, grow, alter)
    case Forget(topic) => accepted - {topic}
  }

  datatype Mark = SetTo(value: string) | Forgotten

  /** What a step does to a topic's key. */
  function MarkOf(accepted: Accepted, step: Step, topic: string, key: string): seq<Mark> {
    match step
    case Pass(req, view, grow, alter) =>
      if req.topic == topic && key in Altered(req, view, accepted, grow, alter) then [SetTo(req.cfgs[key])] else []
    case Forget(t) => if t == topic then [Forgotten] else []
  }

  function Marks(accepted: Accepted, steps: seq<Step>, topic: string, key: string): seq<Mark>
    decreases |steps|
  {
    if steps == [] then []
    else MarkOf(accepted, steps[0], topic, key) + Marks(Next(accepted, steps[0]), steps[1..], topic, key)
  }

  /** The marks of one step: a pass that alters the key sets it, a forget of its topic
      forgets it, anything else leaves none. */
  lemma MarksOfOne(accepted: Accepted, step: Step, topic: string, key: string)
    ensures Marks(accepted, [step], topic, key) ==
      if step.Pass? && step.req.topic == topic && key in step.req.cfgs && key in Altered(step.req, step.view, accepted, step.grow, step.alter)
      then [SetTo(step.req.cfgs[key])]
      else if step == Forget(topic) then [Forgotten] else []
  {
    assert [step][1..] == [];
    assert Marks(Next(accepted, step), [], topic, key) == [];
  }

  function AcceptedRun(accepted: Accepted, steps: seq<Step>): Accepted
    decreases |steps|
  {
    if steps == [] then accepted else AcceptedRun(Next(accepted, steps[0]), steps[1..])
  }

  /** Those of a run are those of its steps, in order. */
  lemma {:induction false} MarksJoin(accepted: Accepted, a: seq<Step>, b: seq<Step>, topic: string, key: string)
    ensures Marks(accepted, a + b, topic, key) == Marks(accepted, a, topic, key) + Marks(AcceptedRun(accepted, a), b, topic, key)
    decreases |a|
  {
    if a == [] {
      assert a + b == b;
    } else {
      assert (a + b)[1..] == a[1..] + b;
      MarksJoin(Next(accepted, a[0]), a[1..], b, topic, key);
    }
  }

  predicate Unreported(steps: seq<Step>, topic: string, key: string) {
    forall i | 0 <= i < |steps| :: steps[i].Pass? && steps[i].req.topic == topic ==> key !in steps[i].view.configs
  }

  predicate KnownAs(accepted: Accepted, topic: string, key: string, m: Mark) {
    m.SetTo? && key in Known(accepted, topic) && Known(accepted, topic)[key] == m.value
  }

  lemma StepMarks(accepted: Accepted, step: Step, topic: string, key: string)
    requires step.Pass? && step.req.topic == topic ==> key !in step.view.configs
    ensures
      var marks, next := MarkOf(accepted, step, topic, key), Next(accepted, step);
      && |marks| <= 1
      && (marks == [] ==> forall m :: KnownAs(next, topic, key, m) <==> KnownAs(accepted, topic, key, m))
      && (marks != [] ==> !KnownAs(accepted, topic, key, marks[0]) && (marks[0].SetTo? ==> KnownAs(next, topic, key, marks[0])))
  {
    if step.Pass? {
      RememberedAt(accepted, step.req, Altered(step.req, step.view, accepted, step.grow, step.alter), key);
    }
  }

  /** Over any run a key that is never reported is not set twice in a row to the
      same value, unless it was forgotten in between. */
  lemma {:induction false} NeverSetTwice(accepted: Accepted, steps: seq<Step>, topic: string, key: string)
    requires Unreported(steps, topic, key)
    ensures
      var marks := Marks(accepted, steps, topic, key);
      && (marks != [] ==> !KnownAs(accepted, topic, key, marks[0]))
      && forall i | 0 <= i < |marks| - 1 :: marks[i].SetTo? ==> marks[i + 1] != marks[i]
    decreases |steps|
  {
    if steps != [] {
      var head, next := MarkOf(accepted, steps[0], topic, key), Next(accepted, steps[0]);
      var rest := Marks(next, steps[1..], topic, key);
      StepMarks(accepted, steps[0], topic, key);
      NeverSetTwice(next, steps[1..], topic, key);
      var marks := head + rest;
      forall i | 0 <= i < |marks| - 1 && marks[i].SetTo? ensures marks[i + 1] != marks[i] {
        if |head| == 1 && i > 0 {
          assert marks[i] == rest[i - 1] && marks[i + 1] == rest[i];
        }
      }
    }
  }

  lemma StepConstant(accepted: Accepted, step: Step, topic: string, key: string, value: string)
    requires step.Pass? && (step.req.topic == topic && key in step.req.cfgs ==> step.req.cfgs[key] == value)
    ensures var marks := MarkOf(accepted, step, topic, key); marks == [] || marks == [SetTo(value)]
  {
  }

  predicate AllSetTo(marks: seq<Mark>, value: string) {
    forall i | 0 <= i < |marks| :: marks[i] == SetTo(value)
  }

  lemma {:induction false} ConstantMarks(accepted: Accepted, steps: seq<Step>, topic: string, key: string, value: string)
    requires forall i | 0 <= i < |steps| :: steps[i].Pass? && (steps[i].req.topic == topic && key in steps[i].req.cfgs ==> steps[i].req.cfgs[key] == value)
    ensures AllSetTo(Marks(accepted, steps, topic, key), value)
    decreases |steps|
  {
    if steps != [] {
      var head, next := MarkOf(accepted, steps[0], topic, key), Next(accepted, steps[0]);
      ConstantMarks(next, steps[1..], topic, key, value);
      StepConstant(accepted, steps[0], topic, key, value);
      assert AllSetTo(head + Marks(next, steps[1..], topic, key), value);
    }
  }

  /** While the requested value stays the same it is set at most once. */
  lemma SetOnce(accepted: Accepted, steps: seq<Step>, topic: string, key: string, value: string)
    requires Unreported(steps, topic, key)
    requires forall i | 0 <= i < |steps| :: steps[i].Pass? && (steps[i].req.topic == topic && key in steps[i].req.cfgs ==> steps[i].req.cfgs[key] == value)
    ensures |Marks(accepted, steps, topic, key)| <= 1
  {
    NeverSetTwice(accepted, steps, topic, key);
    ConstantMarks(accepted, steps, topic, key, value);
    FirstTwoDiffer(Marks(accepted, steps, topic, key));
  }

  lemma FirstTwoDiffer(marks: seq<Mark>)
    requires forall i | 0 <= i < |marks| - 1 :: marks[i].SetTo? ==> marks[i + 1] != marks[i]
    ensures |marks| > 1 && marks[0].SetTo? ==> marks[1] != marks[0]
  {
  }
}
