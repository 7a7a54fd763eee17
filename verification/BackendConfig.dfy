/** The parameter view of a backend: its defaults under a resource's own
    parameters, with templated keys resolved. */
module BackendConfig {
  import opened Wrappers
  import opened Template

  datatype Backend = Backend(defaults: map<string, string>, parameters: map<string, string>, templated: seq<string>)

  /** Entries of m written over out, in whatever order the map yields them. */
  method CopyInto(out: map<string, string>, m: map<string, string>) returns (r: map<string, string>)
    ensures r == out + m
  {
    r := out;
    var todo := m.Keys;
    while todo != {}
      invariant todo <= m.Keys
      invariant r.Keys == out.Keys + (m.Keys - todo)
      invariant forall k <- r :: r[k] == if k in m && k !in todo then m[k] else out[k]
    {
      var k :| k in todo;
      todo := todo - {k};
      r := r[k := m[k]];
    }
  }

  /** The resource wins per key. */
  method EffectiveParameters(b: Backend, params: map<string, string>) returns (r: map<string, string>)
    ensures r == b.parameters + params
  {
    if |b.parameters| == 0 {
      return params;
    }
    var copied := CopyInto(map[], b.parameters);
    r := CopyInto(copied, params);
  }

  function NameInputs(b: Backend, name: string, namespace: string, labels: map<string, string>): Inputs {
    Inputs(name, namespace, labels, b.defaults, false)
  }

  /** What a Buckety's spec.name stands for. */
  function NameOf(b: Backend, specName: string, name: string, namespace: string, labels: map<string, string>): Resolution {
    if specName == "" then Ok(name) else Resolved(specName, NameInputs(b, name, namespace, labels))
  }

  lemma {:induction false} NothingToEscape(s: string)
    requires '$' !in s
    ensures Escaped(s) == s
  {
    if s != [] {
      NothingToEscape(s[1..]);
      assert s == [s[0]] + s[1..];
    }
  }

  /** A name without dollar signs is the resource name as it stands, and any name
      can be had by doubling its dollars, whatever labels and defaults there are. */
  lemma TextNames(b: Backend, text: string, name: string, namespace: string, labels: map<string, string>)
    requires text != ""
    ensures NameOf(b, Escaped(text), name, namespace, labels) == Ok(text)
    ensures '$' !in text ==> NameOf(b, text, name, namespace, labels) == Ok(text)
  {
    EscapeRoundTrip(text, Resolving(NameInputs(b, name, namespace, labels)));
    assert Escaped(text) != "";
    if '$' !in text {
      NothingToEscape(text);
    }
  }

  lemma QuotedResolves(expr: string, f: Resolver)
    requires '}' !in expr
    ensures Rest("${" + expr + "}", 0, f) == f(expr)
  {
    ReferenceHead(expr, "", 0, f);
    assert "${" + expr + "}" + "" == "${" + expr + "}";
    RestEmpty(|expr| + 3, f);
    if f(expr).Ok? {
      ThenEmpty(f(expr).value);
    }
  }

  /** A single reference, in a name and in a parameter. */
  lemma SingleReference(b: Backend, expr: string, name: string, namespace: string, labels: map<string, string>)
    requires '}' !in expr
    ensures NameOf(b, "${" + expr + "}", name, namespace, labels) == ResolveOne(expr, NameInputs(b, name, namespace, labels))
    ensures Meaning(NameInputs(b, name, namespace, labels))("${" + expr + "}")
         == ResolveOne(expr, Restricted(NameInputs(b, name, namespace, labels)))
  {
    hide Rest, ResolveOne;
    var inputs := NameInputs(b, name, namespace, labels);
    QuotedResolves(expr, Resolving(inputs));
    QuotedResolves(expr, Resolving(Restricted(inputs)));
  }

  lemma PlainInViews(b: Backend, name: string, namespace: string, labels: map<string, string>)
    requires name != "" && namespace != ""
    ensures
      var inputs := NameInputs(b, name, namespace, labels);
      && NameOf(b, "${name}", name, namespace, labels) == Meaning(inputs)("${name}") == Ok(name)
      && NameOf(b, "${namespace}", name, namespace, labels) == Meaning(inputs)("${namespace}") == Ok(namespace)
  {
    hide ResolveOne, NameOf, Meaning;
    var inputs := NameInputs(b, name, namespace, labels);
    SingleReference(b, "name", name, namespace, labels);
    SingleReference(b, "namespace", name, namespace, labels);
    PlainReferences(inputs);
    PlainReferences(Restricted(inputs));
    assert "${" + "name" + "}" == "${name}" && "${" + "namespace" + "}" == "${namespace}";
  }

  lemma NoBrace(key: string)
    requires forall c <- key :: WordChar(c)
    ensures '}' !in BACKEND + key && '\'' !in key
  {
    assert !WordChar('}') && !WordChar('\'');
  }

  lemma DefaultInViews(b: Backend, key: string, name: string, namespace: string, labels: map<string, string>)
    requires key != "" && Letter(key[0]) && forall c <- key :: WordChar(c)
    ensures
      var inputs := NameInputs(b, name, namespace, labels);
      var default := if key in b.defaults then Ok(b.defaults[key]) else Err(NoDefault(key));
      NameOf(b, "${" + ("backend." + key) + "}", name, namespace, labels) == Meaning(inputs)("${" + ("backend." + key) + "}") == default
  {
    NoBrace(key);
    hide ResolveOne, NameOf, Meaning;
    var inputs := NameInputs(b, name, namespace, labels);
    SingleReference(b, BACKEND + key, name, namespace, labels);
    ReferencesMean(inputs, key);
    ReferencesMean(Restricted(inputs), key);
  }

  /** In names and in parameters alike the plain references are the object's name and
      namespace, and a backend reference is the backend's default. */
  lemma ReferencesInViews(b: Backend, key: string, name: string, namespace: string, labels: map<string, string>)
    requires name != "" && namespace != ""
    requires key != "" && Letter(key[0]) && forall c <- key :: WordChar(c)
    ensures
      var inputs := NameInputs(b, name, namespace, labels);
      && NameOf(b, "${name}", name, namespace, labels) == Meaning(inputs)("${name}") == Ok(name)
      && NameOf(b, "${namespace}", name, namespace, labels) == Meaning(inputs)("${namespace}") == Ok(namespace)
    ensures
      NameOf(b, "${" + ("backend." + key) + "}", name, namespace, labels)
      == Meaning(NameInputs(b, name, namespace, labels))("${" + ("backend." + key) + "}")
      == if key in b.defaults then Ok(b.defaults[key]) else Err(NoDefault(key))
  {
    hide *;
    PlainInViews(b, name, namespace, labels);
    DefaultInViews(b, key, name, namespace, labels);
  }

  /** A label names the resource, but is refused in a parameter: the name is frozen
      at the first reconcile, parameters are resolved again in each. */
  lemma LabelsOnlyInNames(b: Backend, key: string, name: string, namespace: string, labels: map<string, string>)
    requires key != "" && '\'' !in key && '}' !in key
    ensures NameOf(b, "${" + LabelReference(key) + "}", name, namespace, labels) == if key in labels then Ok(labels[key]) else Err(NoLabel(key))
    ensures Meaning(NameInputs(b, name, namespace, labels))("${" + LabelReference(key) + "}") == Err(LabelRefused(LabelReference(key)))
  {
    var inputs := NameInputs(b, name, namespace, labels);
    assert '}' !in LABEL && '}' !in "']";
    QuotedResolves(LabelReference(key), Resolving(inputs));
    QuotedResolves(LabelReference(key), Resolving(Restricted(inputs)));
    ReferencesMean(inputs, key);
    ReferencesMean(Restricted(inputs), key);
    assert "${" + LabelReference(key) + "}" != "";
  }

  method ResolveName(b: Backend, specName: string, name: string, namespace: string, labels: map<string, string>)
    returns (r: Resolution)
    ensures r == NameOf(b, specName, name, namespace, labels)
    ensures specName == "" ==> r == Ok(name)
    ensures specName != "" && '$' !in specName ==> r == Ok(specName)
  {
    if specName != "" && '$' !in specName {
      TextNames(b, specName, name, namespace, labels);
    }
    if specName == "" {
      return Ok(name);
    }
    r := Resolve(specName, NameInputs(b, name, namespace, labels));
  }

  /** Each parameter is the resource's, or else the backend's; a templated one
      stands for what it resolves to. */
  ghost predicate View(b: Backend, name: string, namespace: string, params: map<string, string>, r: map<string, string>) {
    && r.Keys == b.parameters.Keys + params.Keys
    && forall k <- r ::
         var given := if k in params then params[k] else b.parameters[k];
         if k in b.templated then Meaning(NameInputs(b, name, namespace, map[]))(given) == Ok(r[k]) else r[k] == given
  }

  method ResolvedParameters(b: Backend, name: string, namespace: string, params: map<string, string>)
    returns (r: Result<map<string, string>, ParameterError>)
    ensures r.Ok? ==> View(b, name, namespace, params, r.value)
    ensures r.Ok? <==> NoneFails(b.parameters + params, b.templated, Meaning(NameInputs(b, name, namespace, map[])))
  {
    var effective := EffectiveParameters(b, params);
    if |b.templated| == 0 {
      return Ok(effective);
    }
    r := ResolveParameters(effective, b.templated, NameInputs(b, name, namespace, map[]));
    if r.Ok? {
      ViewHolds(b, name, namespace, params, r.value);
    }
  }

  lemma ViewHolds(b: Backend, name: string, namespace: string, params: map<string, string>, r: map<string, string>)
    requires Pointwise(b.parameters + params, Elements(b.templated), Meaning(NameInputs(b, name, namespace, map[])), r)
    ensures View(b, name, namespace, params, r)
  {
  }

  /** Whatever the order of the templated keys, there is one view. */
  lemma ViewUnique(b: Backend, b': Backend, name: string, namespace: string, params: map<string, string>,
                   r: map<string, string>, r': map<string, string>)
    requires b'.defaults == b.defaults && b'.parameters == b.parameters
    requires forall k :: k in b'.templated <==> k in b.templated
    requires View(b, name, namespace, params, r) && View(b', name, namespace, params, r')
    ensures r == r'
  {
    assert r.Keys == r'.Keys;
    assert forall k <- r :: r[k] == r'[k];
  }
}
