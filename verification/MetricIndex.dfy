/** The gauges of the topic configuration in effect, and the record by which the
    kadm driver takes an old series away when a value's labels change. */
module MetricIndex {
  import opened Wrappers

  datatype Id = Id(namespace: string, buckety: string)

  /** The labels of one config series, and of one cleanup-policy series. */
  datatype ConfigSeries = ConfigSeries(id: Id, topic: string, key: string, source: string)
  datatype PolicySeries = PolicySeries(id: Id, topic: string, policy: string, source: string)

  /** What is exported for a Buckety; an empty policy is none. */
  datatype Record = Record(topic: string, source: map<string, string>, policy: string, policySource: string)

  datatype Index = Index(configs: map<ConfigSeries, real>, policies: set<PolicySeries>, records: map<Id, Record>)

  datatype Source = TopicConfig | BrokerConfig | DefaultConfig | OtherSource

  datatype View = View(configs: map<string, string>, sources: map<string, Source>)

  /** strconv.ParseFloat. */
  type Parser = string -> Option<real>

  const EFFECTIVE: seq<string> := [
    "retention.ms", "retention.bytes", "delete.retention.ms", "min.compaction.lag.ms", "max.compaction.lag.ms",
    "min.cleanable.dirty.ratio", "segment.ms", "segment.bytes", "max.message.bytes", "min.insync.replicas"]

  const POLICY := "cleanup.policy"

  function Label(view: View, key: string): string {
    if key !in view.sources then "unknown"
    else
      match view.sources[key]
      case TopicConfig => "topic"
      case BrokerConfig => "broker"
      case DefaultConfig => "default"
      case OtherSource => "unknown"
  }

  // ---- Single changes ----

  /** The Buckety's record, started over if its topic changed. */
  function Entry(ix: Index, id: Id, topic: string): Index {
    if id in ix.records && ix.records[id].topic == topic then ix
    else
      var kept :=
        if id in ix.records then
          ix.(configs := map s | s in ix.configs && !(s.id == id && s.topic == ix.records[id].topic) :: ix.configs[s],
              policies := set p | p in ix.policies && !(p.id == id && p.topic == ix.records[id].topic))
        else ix;
      kept.(records := ix.records[id := Record(topic, map[], "", "")])
  }

  function SetConfig(ix: Index, id: Id, key: string, value: real, source: string): Index
    requires id in ix.records
  {
    var e := ix.records[id];
    var configs :=
      if key in e.source && e.source[key] != source then ix.configs - {ConfigSeries(id, e.topic, key, e.source[key])} else ix.configs;
    ix.(configs := configs[ConfigSeries(id, e.topic, key, source) := value],
        records := ix.records[id := e.(source := e.source[key := source])])
  }

  function ClearConfig(ix: Index, id: Id, key: string): Index
    requires id in ix.records
  {
    var e := ix.records[id];
    if key !in e.source then ix
    else ix.(configs := ix.configs - {ConfigSeries(id, e.topic, key, e.source[key])},
             records := ix.records[id := e.(source := e.source - {key})])
  }

  function SetPolicy(ix: Index, id: Id, policy: string, source: string): Index
    requires id in ix.records
  {
    var e := ix.records[id];
    var policies :=
      if e.policy != "" && (e.policy != policy || e.policySource != source)
      then ix.policies - {PolicySeries(id, e.topic, e.policy, e.policySource)} else ix.policies;
    ix.(policies := policies + {PolicySeries(id, e.topic, policy, source)},
        records := ix.records[id := e.(policy := policy, policySource := source)])
  }

  function ClearPolicy(ix: Index, id: Id): Index
    requires id in ix.records
  {
    var e := ix.records[id];
    if e.policy == "" then ix
    else ix.(policies := ix.policies - {PolicySeries(id, e.topic, e.policy, e.policySource)},
             records := ix.records[id := e.(policy := "", policySource := "")])
  }

  // ---- Agreement of series and records ----

  predicate ConfigRecorded(records: map<Id, Record>, s: ConfigSeries) {
    s.id in records && records[s.id].topic == s.topic && s.key in records[s.id].source && records[s.id].source[s.key] == s.source
  }

  predicate PolicyRecorded(records: map<Id, Record>, p: PolicySeries) {
    && p.id in records && records[p.id].topic == p.topic && p.policy != ""
    && records[p.id].policy == p.policy && records[p.id].policySource == p.source
  }

  /** The series present are exactly those of the records: at most one source per
      key, one policy and one topic for each Buckety. */
  ghost predicate Agrees(ix: Index) {
    && (forall s: ConfigSeries :: s in ix.configs <==> ConfigRecorded(ix.records, s))
    && (forall p: PolicySeries :: p in ix.policies <==> PolicyRecorded(ix.records, p))
  }

  lemma EntryAgrees(ix: Index, id: Id, topic: string)
    requires Agrees(ix)
    ensures Agrees(Entry(ix, id, topic))
  {
  }

  lemma SetConfigAgrees(ix: Index, id: Id, key: string, value: real, source: string)
    requires Agrees(ix) && id in ix.records
    ensures Agrees(SetConfig(ix, id, key, value, source))
  {
  }

  lemma ClearConfigAgrees(ix: Index, id: Id, key: string)
    requires Agrees(ix) && id in ix.records
    ensures Agrees(ClearConfig(ix, id, key))
  {
  }

  lemma SetPolicyAgrees(ix: Index, id: Id, policy: string, source: string)
    requires Agrees(ix) && id in ix.records
    ensures policy != "" <==> Agrees(SetPolicy(ix, id, policy, source))
  {
    var next := SetPolicy(ix, id, policy, source);
    assert PolicySeries(id, ix.records[id].topic, policy, source) in next.policies;
  }

  lemma ClearPolicyAgrees(ix: Index, id: Id)
    requires Agrees(ix) && id in ix.records
    ensures Agrees(ClearPolicy(ix, id))
  {
  }

  // ---- Whole operations ----

  function Number(view: View, parse: Parser, key: string): Option<real> {
    if key in view.configs then parse(view.configs[key]) else None
  }

  function EffectiveKey(ix: Index, id: Id, view: View, parse: Parser, key: string): Index
    requires id in ix.records
  {
    match Number(view, parse, key)
    case None => ClearConfig(ix, id, key)
    case Some(value) => SetConfig(ix, id, key, value, Label(view, key))
  }

  function EffectiveKeys(ix: Index, id: Id, view: View, parse: Parser, keys: seq<string>): (r: Index)
    requires id in ix.records
    ensures id in r.records
  {
    if keys == [] then ix
    else EffectiveKey(EffectiveKeys(ix, id, view, parse, keys[..|keys| - 1]), id, view, parse, keys[|keys| - 1])
  }

  function EffectivePolicy(ix: Index, id: Id, view: View): Index
    requires id in ix.records
  {
    if POLICY in view.configs then SetPolicy(ix, id, view.configs[POLICY], Label(view, POLICY)) else ClearPolicy(ix, id)
  }

  function AfterEffective(ix: Index, id: Id, topic: string, view: View, parse: Parser): Index {
    EffectivePolicy(EffectiveKeys(Entry(ix, id, topic), id, view, parse, EFFECTIVE), id, view)
  }

  datatype Alter = Alter(name: string, value: Option<string>)

  function AlteredOne(ix: Index, id: Id, a: Alter, parse: Parser): Index
    requires id in ix.records
  {
    if a.value.None? then ix
    else if a.name == POLICY then SetPolicy(ix, id, a.value.value, "topic")
    else if parse(a.value.value).Some? && a.name in EFFECTIVE then SetConfig(ix, id, a.name, parse(a.value.value).value, "topic")
    else ix
  }

  function AlteredAll(ix: Index, id: Id, alters: seq<Alter>, parse: Parser): (r: Index)
    requires id in ix.records
    ensures id in r.records
  {
    if alters == [] then ix else AlteredOne(AlteredAll(ix, id, alters[..|alters| - 1], parse), id, alters[|alters| - 1], parse)
  }

  function AfterAlters(ix: Index, id: Id, topic: string, alters: seq<Alter>, parse: Parser): Index {
    AlteredAll(Entry(ix, id, topic), id, alters, parse)
  }

  function Forget(ix: Index, id: Id): Index {
    Index(map s | s in ix.configs && s.id != id :: ix.configs[s], (set p | p in ix.policies && p.id != id), ix.records - {id})
  }

  datatype Op =
    | Effective(id: Id, topic: string, view: View)
    | Alters(id: Id, topic: string, alters: seq<Alter>)
    | Forgets(id: Id)

  function Step(ix: Index, op: Op, parse: Parser): Index {
    match op
    case Effective(id, topic, view) => AfterEffective(ix, id, topic, view, parse)
    case Alters(id, topic, alters) => AfterAlters(ix, id, topic, alters, parse)
    case Forgets(id) => Forget(ix, id)
  }

  function Run(ops: seq<Op>, parse: Parser): Index {
    if ops == [] then Index(map[], {}, map[]) else Step(Run(ops[..|ops| - 1], parse), ops[|ops| - 1], parse)
  }

  /** No cleanup policy the broker reports or acknowledges is the empty string. */
  predicate PoliciesGiven(op: Op) {
    match op
    case Effective(_, _, view) => POLICY in view.configs ==> view.configs[POLICY] != ""
    case Alters(_, _, alters) => forall a <- alters :: a.name == POLICY ==> a.value != Some("")
    case Forgets(_) => true
  }

  lemma {:induction false} EffectiveKeysAgree(ix: Index, id: Id, view: View, parse: Parser, keys: seq<string>)
    requires Agrees(ix) && id in ix.records
    ensures Agrees(EffectiveKeys(ix, id, view, parse, keys))
  {
    if keys != [] {
      var key := keys[|keys| - 1];
      var before := EffectiveKeys(ix, id, view, parse, keys[..|keys| - 1]);
      EffectiveKeysAgree(ix, id, view, parse, keys[..|keys| - 1]);
      match Number(view, parse, key) {
        case None => ClearConfigAgrees(before, id, key);
        case Some(value) => SetConfigAgrees(before, id, key, value, Label(view, key));
      }
    }
  }

  lemma {:induction false} AlteredAllAgree(ix: Index, id: Id, alters: seq<Alter>, parse: Parser)
    requires Agrees(ix) && id in ix.records && forall a <- alters :: a.name == POLICY ==> a.value != Some("")
    ensures Agrees(AlteredAll(ix, id, alters, parse))
  {
    if alters != [] {
      var a := alters[|alters| - 1];
      var before := AlteredAll(ix, id, alters[..|alters| - 1], parse);
      AlteredAllAgree(ix, id, alters[..|alters| - 1], parse);
      assert a in alters;
      if a.value.Some? {
        if a.name == POLICY {
          SetPolicyAgrees(before, id, a.value.value, "topic");
        } else if parse(a.value.value).Some? && a.name in EFFECTIVE {
          SetConfigAgrees(before, id, a.name, parse(a.value.value).value, "topic");
        }
      }
    }
  }

  lemma StepAgrees(ix: Index, op: Op, parse: Parser)
    requires Agrees(ix) && PoliciesGiven(op)
    ensures Agrees(Step(ix, op, parse))
  {
    match op {
      case Effective(id, topic, view) =>
        EntryAgrees(ix, id, topic);
        EffectiveKeysAgree(Entry(ix, id, topic), id, view, parse, EFFECTIVE);
        var keyed := EffectiveKeys(Entry(ix, id, topic), id, view, parse, EFFECTIVE);
        if POLICY in view.configs {
          SetPolicyAgrees(keyed, id, view.configs[POLICY], Label(view, POLICY));
        } else {
          ClearPolicyAgrees(keyed, id);
        }
      case Alters(id, topic, alters) =>
        EntryAgrees(ix, id, topic);
        AlteredAllAgree(Entry(ix, id, topic), id, alters, parse);
      case Forgets(id) =>
    }
  }

  /** After any run the series are exactly those of the records. */
  lemma {:induction false} RunAgrees(ops: seq<Op>, parse: Parser)
    requires forall i | 0 <= i < |ops| :: PoliciesGiven(ops[i])
    ensures Agrees(Run(ops, parse))
  {
    if ops != [] {
      RunAgrees(ops[..|ops| - 1], parse);
      StepAgrees(Run(ops[..|ops| - 1], parse), ops[|ops| - 1], parse);
    }
  }

  /** A recorded empty policy leaves a series that no later policy replaces. */
  lemma EmptyPolicyLingers(id: Id, topic: string, parse: Parser)
    ensures
      var ops := [Alters(id, topic, [Alter(POLICY, Some(""))]), Alters(id, topic, [Alter(POLICY, Some("delete"))])];
      Run(ops, parse).policies == {PolicySeries(id, topic, "", "topic"), PolicySeries(id, topic, "delete", "topic")}
  {
    var first, second := [Alter(POLICY, Some(""))], [Alter(POLICY, Some("delete"))];
    var ops := [Alters(id, topic, first), Alters(id, topic, second)];
    assert ops[..1] == [ops[0]] && ops[..1][..0] == [];
    var i0 := Index(map[], {}, map[]);
    assert Run(ops[..1], parse) == AfterAlters(i0, id, topic, first, parse);
    assert first[..0] == [] && second[..0] == [];
    assert AlteredAll(Entry(i0, id, topic), id, first, parse) == SetPolicy(Entry(i0, id, topic), id, "", "topic");
    var i1 := Run(ops[..1], parse);
    assert AlteredAll(Entry(i1, id, topic), id, second, parse) == SetPolicy(i1, id, "delete", "topic");
  }

  /** Such a series goes exactly when the Buckety is forgotten or changes its topic. */
  lemma LingersExactly(ix: Index, op: Op, parse: Parser, p: PolicySeries)
    requires p.policy == "" && p in ix.policies && p.id in ix.records && ix.records[p.id].topic == p.topic
    ensures p in Step(ix, op, parse).policies <==>
            op.id != p.id || (!op.Forgets? && op.topic == p.topic)
  {
    match op {
      case Effective(id, topic, view) => KeysPolicies(Entry(ix, id, topic), id, view, parse, EFFECTIVE);
      case Alters(id, topic, alters) => AltersPolicies(Entry(ix, id, topic), id, topic, alters, parse, p);
      case Forgets(_) =>
    }
  }

  lemma {:induction false} KeysPolicies(ix: Index, id: Id, view: View, parse: Parser, keys: seq<string>)
    requires id in ix.records
    ensures
      var next := EffectiveKeys(ix, id, view, parse, keys);
      && next.policies == ix.policies && next.records.Keys == ix.records.Keys
      && SamePolicy(next.records[id], ix.records[id])
      && forall i <- ix.records :: i != id ==> next.records[i] == ix.records[i]
  {
    if keys != [] {
      KeysPolicies(ix, id, view, parse, keys[..|keys| - 1]);
    }
  }

  predicate SamePolicy(a: Record, b: Record) {
    a.topic == b.topic && a.policy == b.policy && a.policySource == b.policySource
  }

  lemma {:induction false} AltersPolicies(ix: Index, id: Id, topic: string, alters: seq<Alter>, parse: Parser, p: PolicySeries)
    requires id in ix.records && ix.records[id].topic == topic && p.policy == ""
    ensures
      var next := AlteredAll(ix, id, alters, parse);
      && next.records[id].topic == topic
      && (p in ix.policies ==> p in next.policies)
      && (p in next.policies && (p.id != id || p.topic != topic) ==> p in ix.policies)
  {
    if alters != [] {
      AltersPolicies(ix, id, topic, alters[..|alters| - 1], parse, p);
    }
  }

  // ---- The values shown ----

  /** The key's series is the one of this value and source, and no other. */
  ghost predicate Shows(ix: Index, id: Id, topic: string, key: string, value: real, source: string) {
    && ConfigSeries(id, topic, key, source) in ix.configs && ix.configs[ConfigSeries(id, topic, key, source)] == value
    && forall s <- ix.configs :: s.id == id && s.key == key ==> s.topic == topic && s.source == source
  }

  ghost predicate ShowsNothing(ix: Index, id: Id, key: string) {
    forall s <- ix.configs :: s.id == id ==> s.key != key
  }

  ghost predicate ShowsView(ix: Index, id: Id, topic: string, view: View, parse: Parser, key: string) {
    match Number(view, parse, key)
    case None => ShowsNothing(ix, id, key)
    case Some(value) => Shows(ix, id, topic, key, value, Label(view, key))
  }

  predicate OtherSeriesKept(a: Index, b: Index, id: Id, keys: set<string>) {
    && (forall s <- a.configs :: s.id != id || s.key !in keys ==> s in b.configs && b.configs[s] == a.configs[s])
    && (forall s <- b.configs :: s.id != id || s.key !in keys ==> s in a.configs)
  }

  function Elements(keys: seq<string>): set<string> {
    set k | k in keys
  }

  lemma KeptChain(a: Index, b: Index, c: Index, id: Id, keys: set<string>, more: set<string>)
    requires OtherSeriesKept(a, b, id, keys) && OtherSeriesKept(b, c, id, more)
    ensures OtherSeriesKept(a, c, id, keys + more)
  {
  }

  lemma KeyShown(ix: Index, id: Id, topic: string, view: View, parse: Parser, key: string)
    requires Agrees(ix) && id in ix.records && ix.records[id].topic == topic
    ensures
      var next := EffectiveKey(ix, id, view, parse, key);
      ShowsView(next, id, topic, view, parse, key) && OtherSeriesKept(ix, next, id, {key}) && next.records[id].topic == topic
  {
  }

  lemma {:induction false} KeysShown(ix: Index, id: Id, topic: string, view: View, parse: Parser, keys: seq<string>)
    requires Agrees(ix) && id in ix.records && ix.records[id].topic == topic
    requires forall i, j | 0 <= i < j < |keys| :: keys[i] != keys[j]
    ensures
      var next := EffectiveKeys(ix, id, view, parse, keys);
      && (forall i | 0 <= i < |keys| :: ShowsView(next, id, topic, view, parse, keys[i]))
      && OtherSeriesKept(ix, next, id, Elements(keys)) && next.records[id].topic == topic
  {
    if keys != [] {
      var n := |keys| - 1;
      var before := EffectiveKeys(ix, id, view, parse, keys[..n]);
      KeysShown(ix, id, topic, view, parse, keys[..n]);
      EffectiveKeysAgree(ix, id, view, parse, keys[..n]);
      KeyShown(before, id, topic, view, parse, keys[n]);
      var next := EffectiveKeys(ix, id, view, parse, keys);
      KeptChain(ix, before, next, id, Elements(keys[..n]), {keys[n]});
      assert Elements(keys) == Elements(keys[..n]) + {keys[n]} by { assert keys == keys[..n] + [keys[n]]; }
      forall i | 0 <= i < n ensures ShowsView(next, id, topic, view, parse, keys[i]) {
        assert ShowsView(before, id, topic, view, parse, keys[..n][i]);
        StillShown(before, next, id, topic, view, parse, keys[i], keys[n]);
      }
    }
  }

  lemma StillShown(a: Index, b: Index, id: Id, topic: string, view: View, parse: Parser, key: string, other: string)
    requires ShowsView(a, id, topic, view, parse, key) && OtherSeriesKept(a, b, id, {other}) && key != other
    ensures ShowsView(b, id, topic, view, parse, key)
  {
  }

  /** After a pass has read the topic, each exported key shows the value and the
      source the broker reports, or nothing when it reports no number. */
  lemma EffectiveShown(ix: Index, id: Id, topic: string, view: View, parse: Parser)
    requires Agrees(ix)
    ensures
      var next := AfterEffective(ix, id, topic, view, parse);
      forall i | 0 <= i < |EFFECTIVE| :: ShowsView(next, id, topic, view, parse, EFFECTIVE[i])
  {
    EntryAgrees(ix, id, topic);
    var start := Entry(ix, id, topic);
    KeysShown(start, id, topic, view, parse, EFFECTIVE);
    var keyed := EffectiveKeys(start, id, view, parse, EFFECTIVE);
    assert AfterEffective(ix, id, topic, view, parse).configs == keyed.configs;
    forall i | 0 <= i < |EFFECTIVE| ensures ShowsView(AfterEffective(ix, id, topic, view, parse), id, topic, view, parse, EFFECTIVE[i]) {
      assert ShowsView(keyed, id, topic, view, parse, EFFECTIVE[i]);
    }
  }

  /** In the labels' own words: for each of the exported keys there is exactly one
      series, with the number reported and the place it comes from, or there is
      none when no number is reported. */
  lemma SeriesExactly(ix: Index, id: Id, topic: string, view: View, parse: Parser, key: string, source: string, value: real)
    requires Agrees(ix)
    requires key in ["retention.ms", "retention.bytes", "delete.retention.ms", "min.compaction.lag.ms", "max.compaction.lag.ms",
                     "min.cleanable.dirty.ratio", "segment.ms", "segment.bytes", "max.message.bytes", "min.insync.replicas"]
    ensures
      var next, s := AfterEffective(ix, id, topic, view, parse), ConfigSeries(id, topic, key, source);
      s in next.configs && next.configs[s] == value <==>
        && key in view.configs && parse(view.configs[key]) == Some(value)
        && source == if key !in view.sources then "unknown"
                     else match view.sources[key]
                          case TopicConfig => "topic"
                          case BrokerConfig => "broker"
                          case DefaultConfig => "default"
                          case OtherSource => "unknown"
  {
    EffectiveShown(ix, id, topic, view, parse);
    var i :| 0 <= i < |EFFECTIVE| && EFFECTIVE[i] == key;
    assert ShowsView(AfterEffective(ix, id, topic, view, parse), id, topic, view, parse, EFFECTIVE[i]);
  }

  predicate Exported(a: Alter, parse: Parser) {
    a.value.Some? && a.name != POLICY && a.name in EFFECTIVE && parse(a.value.value).Some?
  }

  lemma OneShown(ix: Index, id: Id, topic: string, a: Alter, parse: Parser)
    requires Agrees(ix) && id in ix.records && ix.records[id].topic == topic
    ensures
      var next := AlteredOne(ix, id, a, parse);
      && OtherSeriesKept(ix, next, id, {a.name}) && next.records[id].topic == topic
      && (Exported(a, parse) ==> Shows(next, id, topic, a.name, parse(a.value.value).value, "topic"))
      && (!Exported(a, parse) ==> next.configs == ix.configs)
  {
  }

  lemma StillShows(a: Index, b: Index, id: Id, topic: string, key: string, value: real, source: string, other: string)
    requires Shows(a, id, topic, key, value, source) && OtherSeriesKept(a, b, id, {other}) && key != other
    ensures Shows(b, id, topic, key, value, source)
  {
  }

  lemma {:induction false} AllShown(ix: Index, id: Id, topic: string, alters: seq<Alter>, parse: Parser)
    requires Agrees(ix) && id in ix.records && ix.records[id].topic == topic && PoliciesGiven(Alters(id, topic, alters))
    requires forall i, j | 0 <= i < j < |alters| :: alters[i].name != alters[j].name
    ensures
      var next := AlteredAll(ix, id, alters, parse);
      && next.records[id].topic == topic
      && forall i | 0 <= i < |alters| && Exported(alters[i], parse) ::
           Shows(next, id, topic, alters[i].name, parse(alters[i].value.value).value, "topic")
  {
    if alters != [] {
      var n := |alters| - 1;
      var before := AlteredAll(ix, id, alters[..n], parse);
      AllShown(ix, id, topic, alters[..n], parse);
      AlteredAllAgree(ix, id, alters[..n], parse);
      OneShown(before, id, topic, alters[n], parse);
      forall i | 0 <= i < n && Exported(alters[i], parse)
        ensures Shows(AlteredAll(ix, id, alters, parse), id, topic, alters[i].name, parse(alters[i].value.value).value, "topic")
      {
        assert alters[..n][i] == alters[i];
        StillShows(before, AlteredAll(ix, id, alters, parse), id, topic, alters[i].name,
                   parse(alters[i].value.value).value, "topic", alters[n].name);
      }
    }
  }

  /** After an acknowledged alter each exported key in it shows its new value, as
      an override of the topic. */
  lemma AlteredShown(ix: Index, id: Id, topic: string, alters: seq<Alter>, parse: Parser)
    requires Agrees(ix) && PoliciesGiven(Alters(id, topic, alters))
    requires forall i, j | 0 <= i < j < |alters| :: alters[i].name != alters[j].name
    ensures
      var next := AfterAlters(ix, id, topic, alters, parse);
      forall i | 0 <= i < |alters| && Exported(alters[i], parse) ::
        Shows(next, id, topic, alters[i].name, parse(alters[i].value.value).value, "topic")
  {
    EntryAgrees(ix, id, topic);
    AllShown(Entry(ix, id, topic), id, topic, alters, parse);
  }

  /** And one cleanup policy, the reported one, or none. */
  lemma PolicyShown(ix: Index, id: Id, topic: string, view: View, parse: Parser, p: PolicySeries)
    requires Agrees(ix) && PoliciesGiven(Effective(id, topic, view)) && p.id == id
    ensures
      p in AfterEffective(ix, id, topic, view, parse).policies <==>
      "cleanup.policy" in view.configs && p == PolicySeries(id, topic, view.configs["cleanup.policy"], Label(view, "cleanup.policy"))
  {
    StepAgrees(ix, Effective(id, topic, view), parse);
    EntryAgrees(ix, id, topic);
    KeysShown(Entry(ix, id, topic), id, topic, view, parse, EFFECTIVE);
  }

  /** Nothing of a forgotten Buckety is left, and nothing of another is lost. */
  lemma ForgottenGone(ix: Index, id: Id)
    ensures
      var next := Forget(ix, id);
      && (forall s <- next.configs :: s.id != id) && (forall p <- next.policies :: p.id != id)
      && (forall s <- ix.configs :: s.id != id ==> s in next.configs && next.configs[s] == ix.configs[s])
      && (forall p <- ix.policies :: p.id != id ==> p in next.policies)
  {
  }

  // ---- The values shown after a run ----

  datatype Shown = Shown(topic: string, value: real, source: string)

  /** The last exported value of a key in an alter. */
  function LastAlter(alters: seq<Alter>, parse: Parser, key: string): Option<real> {
    if alters == [] then None
    else
      var a := alters[|alters| - 1];
      if a.name == key && Exported(a, parse) then parse(a.value.value) else LastAlter(alters[..|alters| - 1], parse, key)
  }

  /** What an operation makes of the value last recorded for a Buckety's key. */
  function Recorded(before: Option<Shown>, op: Op, parse: Parser, id: Id, key: string): Option<Shown> {
    if op.id != id then before
    else
      match op
      case Effective(_, topic, view) =>
        (match Number(view, parse, key)
         case None => None
         case Some(value) => Some(Shown(topic, value, Label(view, key))))
      case Alters(_, topic, alters) =>
        (match LastAlter(alters, parse, key)
         case Some(value) => Some(Shown(topic, value, "topic"))
         case None => if before.Some? && before.value.topic == topic then before else None)
      case Forgets(_) => None
  }

  function LastRecorded(ops: seq<Op>, parse: Parser, id: Id, key: string): Option<Shown> {
    if ops == [] then None
    else Recorded(LastRecorded(ops[..|ops| - 1], parse, id, key), ops[|ops| - 1], parse, id, key)
  }

  ghost predicate ShowsLast(ix: Index, id: Id, key: string, last: Option<Shown>) {
    match last
    case None => ShowsNothing(ix, id, key)
    case Some(x) => Shows(ix, id, x.topic, key, x.value, x.source)
  }

  /** The Buckety's series of the key are the same in both. */
  predicate KeyKept(a: Index, b: Index, id: Id, key: string) {
    && (forall s <- a.configs :: s.id == id && s.key == key ==> s in b.configs && b.configs[s] == a.configs[s])
    && (forall s <- b.configs :: s.id == id && s.key == key ==> s in a.configs)
  }

  lemma KeptShows(a: Index, b: Index, id: Id, key: string, last: Option<Shown>)
    requires KeyKept(a, b, id, key) && ShowsLast(a, id, key, last)
    ensures ShowsLast(b, id, key, last)
  {
  }

  lemma OtherKept(a: Index, b: Index, changed: Id, keys: set<string>, id: Id, key: string)
    requires OtherSeriesKept(a, b, changed, keys) && (id != changed || key !in keys)
    ensures KeyKept(a, b, id, key)
  {
  }

  /** Opening the record keeps what is shown under the same topic, and drops all
      of the Buckety's series under another. */
  lemma EntryShows(ix: Index, changed: Id, topic: string, id: Id, key: string, last: Option<Shown>)
    requires Agrees(ix) && ShowsLast(ix, id, key, last)
    ensures
      ShowsLast(Entry(ix, changed, topic), id, key,
                if changed == id && last.Some? && last.value.topic != topic then None else last)
  {
  }

  lemma {:induction false} AltersShow(ix: Index, changed: Id, topic: string, alters: seq<Alter>, parse: Parser, id: Id, key: string, last: Option<Shown>)
    requires Agrees(ix) && changed in ix.records && ix.records[changed].topic == topic && PoliciesGiven(Alters(changed, topic, alters))
    requires ShowsLast(ix, id, key, last)
    ensures
      var next := AlteredAll(ix, changed, alters, parse);
      && next.records[changed].topic == topic
      && ShowsLast(next, id, key,
                   if id == changed && LastAlter(alters, parse, key).Some?
                   then Some(Shown(topic, LastAlter(alters, parse, key).value, "topic")) else last)
  {
    if alters != [] {
      var n := |alters| - 1;
      var before := AlteredAll(ix, changed, alters[..n], parse);
      AltersShow(ix, changed, topic, alters[..n], parse, id, key, last);
      AlteredAllAgree(ix, changed, alters[..n], parse);
      OneShown(before, changed, topic, alters[n], parse);
      var next := AlteredAll(ix, changed, alters, parse);
      if id != changed || alters[n].name != key {
        OtherKept(before, next, changed, {alters[n].name}, id, key);
      }
      if !(id == changed && alters[n].name == key && Exported(alters[n], parse)) {
        KeptShows(before, next, id, key,
                  if id == changed && LastAlter(alters[..n], parse, key).Some?
                  then Some(Shown(topic, LastAlter(alters[..n], parse, key).value, "topic")) else last);
      }
    }
  }

  lemma OwnEffectiveShows(ix: Index, op: Op, parse: Parser, key: string, last: Option<Shown>)
    requires op.Effective? && Agrees(ix) && key in EFFECTIVE
    ensures ShowsLast(Step(ix, op, parse), op.id, key, Recorded(last, op, parse, op.id, key))
  {
    EffectiveShown(ix, op.id, op.topic, op.view, parse);
    var i :| 0 <= i < |EFFECTIVE| && EFFECTIVE[i] == key;
    assert ShowsView(AfterEffective(ix, op.id, op.topic, op.view, parse), op.id, op.topic, op.view, parse, EFFECTIVE[i]);
  }

  lemma OtherEffectiveShows(ix: Index, op: Op, parse: Parser, id: Id, key: string, last: Option<Shown>)
    requires op.Effective? && Agrees(ix) && op.id != id && ShowsLast(ix, id, key, last)
    ensures ShowsLast(Step(ix, op, parse), id, key, last)
  {
    var start := Entry(ix, op.id, op.topic);
    var keyed := EffectiveKeys(start, op.id, op.view, parse, EFFECTIVE);
    EntryAgrees(ix, op.id, op.topic);
    EntryShows(ix, op.id, op.topic, id, key, last);
    KeysShown(start, op.id, op.topic, op.view, parse, EFFECTIVE);
    OtherKept(start, keyed, op.id, Elements(EFFECTIVE), id, key);
    KeptShows(start, keyed, id, key, last);
    KeptShows(keyed, EffectivePolicy(keyed, op.id, op.view), id, key, last);
  }

  lemma AltersStepShows(ix: Index, op: Op, parse: Parser, id: Id, key: string, last: Option<Shown>)
    requires op.Alters? && Agrees(ix) && PoliciesGiven(op) && ShowsLast(ix, id, key, last)
    ensures ShowsLast(Step(ix, op, parse), id, key, Recorded(last, op, parse, id, key))
  {
    var kept := if op.id == id && last.Some? && last.value.topic != op.topic then None else last;
    EntryAgrees(ix, op.id, op.topic);
    EntryShows(ix, op.id, op.topic, id, key, last);
    AltersShow(Entry(ix, op.id, op.topic), op.id, op.topic, op.alters, parse, id, key, kept);
  }

  /** After any run each exported key of each Buckety shows the value and source of
      the last operation that recorded it, under its topic, and nothing where that
      operation took it away: operations on other Bucketies and other keys in
      between change none of it. */
  lemma {:induction false} RunShowsLast(ops: seq<Op>, parse: Parser, id: Id, key: string)
    requires (forall i | 0 <= i < |ops| :: PoliciesGiven(ops[i])) && key in EFFECTIVE
    ensures ShowsLast(Run(ops, parse), id, key, LastRecorded(ops, parse, id, key))
  {
    if ops != [] {
      var before, op := ops[..|ops| - 1], ops[|ops| - 1];
      var last := LastRecorded(before, parse, id, key);
      RunShowsLast(before, parse, id, key);
      RunAgrees(before, parse);
      match op {
        case Effective(_, _, _) =>
          if op.id == id {
            OwnEffectiveShows(Run(before, parse), op, parse, key, last);
          } else {
            OtherEffectiveShows(Run(before, parse), op, parse, id, key, last);
          }
        case Alters(_, _, _) => AltersStepShows(Run(before, parse), op, parse, id, key, last);
        case Forgets(_) =>
      }
    }
  }

  // ---- The policy shown after a run ----

  datatype Policy = Policy(topic: string, policy: string, source: string)

  function LastPolicyAlter(alters: seq<Alter>): Option<string> {
    if alters == [] then None
    else
      var a := alters[|alters| - 1];
      if a.name == POLICY && a.value.Some? then a.value else LastPolicyAlter(alters[..|alters| - 1])
  }

  function RecordedPolicy(before: Option<Policy>, op: Op, id: Id): Option<Policy> {
    if op.id != id then before
    else
      match op
      case Effective(_, topic, view) =>
        if POLICY in view.configs then Some(Policy(topic, view.configs[POLICY], Label(view, POLICY))) else None
      case Alters(_, topic, alters) =>
        (match LastPolicyAlter(alters)
         case Some(policy) => Some(Policy(topic, policy, "topic"))
         case None => if before.Some? && before.value.topic == topic then before else None)
      case Forgets(_) => None
  }

  function LastPolicy(ops: seq<Op>, id: Id): Option<Policy> {
    if ops == [] then None else RecordedPolicy(LastPolicy(ops[..|ops| - 1], id), ops[|ops| - 1], id)
  }

  predicate RecordsPolicy(ix: Index, id: Id, last: Option<Policy>) {
    match last
    case None => id in ix.records ==> ix.records[id].policy == ""
    case Some(x) => id in ix.records && ix.records[id].topic == x.topic && x.policy != "" &&
                    ix.records[id].policy == x.policy && ix.records[id].policySource == x.source
  }

  lemma {:induction false} AltersRecord(ix: Index, changed: Id, topic: string, alters: seq<Alter>, parse: Parser, id: Id, last: Option<Policy>)
    requires changed in ix.records && ix.records[changed].topic == topic && PoliciesGiven(Alters(changed, topic, alters))
    requires RecordsPolicy(ix, id, last) && (id == changed && last.Some? ==> last.value.topic == topic)
    ensures
      var next := AlteredAll(ix, changed, alters, parse);
      && next.records[changed].topic == topic
      && RecordsPolicy(next, id, if id == changed && LastPolicyAlter(alters).Some?
                                 then Some(Policy(topic, LastPolicyAlter(alters).value, "topic")) else last)
  {
    if alters != [] {
      var n := |alters| - 1;
      assert alters[n] in alters;
      AltersRecord(ix, changed, topic, alters[..n], parse, id, last);
    }
  }

  lemma StepRecordsPolicy(ix: Index, op: Op, parse: Parser, id: Id, last: Option<Policy>)
    requires RecordsPolicy(ix, id, last) && PoliciesGiven(op)
    ensures RecordsPolicy(Step(ix, op, parse), id, RecordedPolicy(last, op, id))
  {
    match op {
      case Effective(changed, topic, view) => KeysPolicies(Entry(ix, changed, topic), changed, view, parse, EFFECTIVE);
      case Alters(changed, topic, alters) =>
        var kept := if changed == id && last.Some? && last.value.topic != topic then None else last;
        AltersRecord(Entry(ix, changed, topic), changed, topic, alters, parse, id, kept);
      case Forgets(_) =>
    }
  }

  lemma {:induction false} RunRecordsPolicy(ops: seq<Op>, parse: Parser, id: Id)
    requires forall i | 0 <= i < |ops| :: PoliciesGiven(ops[i])
    ensures RecordsPolicy(Run(ops, parse), id, LastPolicy(ops, id))
  {
    if ops != [] {
      RunRecordsPolicy(ops[..|ops| - 1], parse, id);
      StepRecordsPolicy(Run(ops[..|ops| - 1], parse), ops[|ops| - 1], parse, id, LastPolicy(ops[..|ops| - 1], id));
    }
  }

  /** After any run a Buckety's one policy series is that of the last operation
      that recorded a policy, or there is none. */
  lemma RunShowsPolicy(ops: seq<Op>, parse: Parser, p: PolicySeries)
    requires forall i | 0 <= i < |ops| :: PoliciesGiven(ops[i])
    ensures p in Run(ops, parse).policies <==> LastPolicy(ops, p.id) == Some(Policy(p.topic, p.policy, p.source))
  {
    RunAgrees(ops, parse);
    RunRecordsPolicy(ops, parse, p.id);
  }

  // ---- The driver's fields ----

  class Exporter {
    var configs: map<ConfigSeries, real>
    var policies: set<PolicySeries>
    var records: map<Id, Record>

    function Value(): Index
      reads this
    {
      Index(configs, policies, records)
    }

    constructor ()
      ensures Value() == Index(map[], {}, map[])
    {
      configs, policies, records := map[], {}, map[];
    }

    method Open(id: Id, topic: string)
      modifies this
      ensures Value() == Entry(old(Value()), id, topic)
    {
      if id in records && records[id].topic != topic {
        var was := records[id].topic;
        configs := map s | s in configs && !(s.id == id && s.topic == was) :: configs[s];
        policies := set p | p in policies && !(p.id == id && p.topic == was);
        records := records - {id};
      }
      if id !in records {
        records := records[id := Record(topic, map[], "", "")];
      }
      assert records == Entry(old(Value()), id, topic).records;
    }

    method PutConfig(id: Id, key: string, value: real, source: string)
      requires id in records
      modifies this`configs, this`records
      ensures Value() == SetConfig(old(Value()), id, key, value, source)
    {
      var e := records[id];
      if key in e.source && e.source[key] != source {
        configs := configs - {ConfigSeries(id, e.topic, key, e.source[key])};
      }
      records := records[id := e.(source := e.source[key := source])];
      configs := configs[ConfigSeries(id, e.topic, key, source) := value];
    }

    method PutPolicy(id: Id, policy: string, source: string)
      requires id in records
      modifies this`policies, this`records
      ensures Value() == SetPolicy(old(Value()), id, policy, source)
    {
      var e := records[id];
      if e.policy != "" && (e.policy != policy || e.policySource != source) {
        policies := policies - {PolicySeries(id, e.topic, e.policy, e.policySource)};
      }
      records := records[id := e.(policy := policy, policySource := source)];
      policies := policies + {PolicySeries(id, e.topic, policy, source)};
    }

    method RecordEffective(id: Id, topic: string, view: View, parse: Parser)
      modifies this
      ensures Value() == AfterEffective(old(Value()), id, topic, view, parse)
    {
      Open(id, topic);
      ghost var start := Value();
      for i := 0 to |EFFECTIVE|
        invariant id in records && records[id].topic == topic
        invariant Value() == EffectiveKeys(start, id, view, parse, EFFECTIVE[..i])
      {
        assert EFFECTIVE[..i + 1][..i] == EFFECTIVE[..i];
        var k := EFFECTIVE[i];
        var number := Number(view, parse, k);
        if number.None? {
          var e := records[id];
          if k in e.source {
            configs := configs - {ConfigSeries(id, e.topic, k, e.source[k])};
            records := records[id := e.(source := e.source - {k})];
          }
          continue;
        }
        PutConfig(id, k, number.value, Label(view, k));
      }
      assert EFFECTIVE[..|EFFECTIVE|] == EFFECTIVE;
      var e := records[id];
      if POLICY in view.configs {
        PutPolicy(id, view.configs[POLICY], Label(view, POLICY));
      } else if e.policy != "" {
        policies := policies - {PolicySeries(id, topic, e.policy, e.policySource)};
        records := records[id := e.(policy := "", policySource := "")];
      }
    }

    method RecordAltered(id: Id, topic: string, alters: seq<Alter>, parse: Parser)
      modifies this
      ensures Value() == AfterAlters(old(Value()), id, topic, alters, parse)
    {
      Open(id, topic);
      ghost var start := Value();
      for i := 0 to |alters|
        invariant id in records && Value() == AlteredAll(start, id, alters[..i], parse)
      {
        assert alters[..i + 1][..i] == alters[..i];
        var a := alters[i];
        if a.value.None? {
          continue;
        }
        if a.name == POLICY {
          PutPolicy(id, a.value.value, "topic");
          continue;
        }
        var number := parse(a.value.value);
        if number.Some? && a.name in EFFECTIVE {
          PutConfig(id, a.name, number.value, "topic");
        }
      }
      assert alters[..|alters|] == alters;
    }

    method ForgetBuckety(id: Id)
      modifies this
      ensures Value() == Forget(old(Value()), id)
    {
      configs := map s | s in configs && s.id != id :: configs[s];
      policies := set p | p in policies && p.id != id;
      records := records - {id};
    }
  }
}
