/** The template resolver of spec.name and of templated parameters. */
module Template {
  import opened Wrappers

  datatype Inputs = Inputs(
    name: string, namespace: string, labels: map<string, string>, defaults: map<string, string>, noLabels: bool)

  datatype Error =
    | Unterminated(offset: nat) | EmptyName | EmptyNamespace | LabelRefused(expr: string)
    | NoLabel(key: string) | NoDefault(key: string) | Unsupported(expr: string)

  type Resolution = Result<string, Error>

  // ---- References ----

  predicate Letter(c: char) {
    'a' <= c <= 'z' || 'A' <= c <= 'Z'
  }

  predicate WordChar(c: char) {
    Letter(c) || '0' <= c <= '9' || c == '_' || c == '-'
  }

  const LABEL := "label['"
  const BACKEND := "backend."

  /** The key of a label['key'] reference. */
  function LabelKey(expr: string): Option<string> {
    if |expr| > |LABEL| + 2 && LABEL <= expr && expr[|expr| - 2..] == "']" &&
       '\'' !in expr[|LABEL|..|expr| - 2] then Some(expr[|LABEL|..|expr| - 2])
    else None
  }

  /** The key of a backend.key reference. */
  function DefaultKey(expr: string): Option<string> {
    if |expr| > |BACKEND| && BACKEND <= expr && Letter(expr[|BACKEND|]) &&
       forall c <- expr[|BACKEND|..] :: WordChar(c) then Some(expr[|BACKEND|..])
    else None
  }

  function ResolveOne(expr: string, inputs: Inputs): Resolution {
    if expr == "name" then if inputs.name == "" then Err(EmptyName) else Ok(inputs.name)
    else if expr == "namespace" then if inputs.namespace == "" then Err(EmptyNamespace) else Ok(inputs.namespace)
    else
      match LabelKey(expr)
      case Some(key) =>
        if inputs.noLabels then Err(LabelRefused(expr))
        else if key in inputs.labels then Ok(inputs.labels[key]) else Err(NoLabel(key))
      case None =>
        match DefaultKey(expr)
        case Some(key) => if key in inputs.defaults then Ok(inputs.defaults[key]) else Err(NoDefault(key))
        case None => Err(Unsupported(expr))
  }

  /** The reference to a label. */
  function LabelReference(key: string): string {
    LABEL + key + "']"
  }

  /** A label reference names its key, and nothing else is read as one. */
  lemma LabelForm(expr: string, key: string)
    ensures LabelKey(expr) == Some(key) <==> expr == "label['" + key + "']" && key != "" && '\'' !in key
  {
    if LabelKey(expr) == Some(key) {
      assert expr == expr[..|LABEL|] + expr[|LABEL|..|expr| - 2] + expr[|expr| - 2..];
    }
    if expr == LabelReference(key) {
      assert expr[|LABEL|..|expr| - 2] == key && expr[|expr| - 2..] == "']";
    }
  }

  /** A backend reference names its key: a letter, then letters, digits, _ or -. */
  lemma DefaultForm(expr: string, key: string)
    ensures DefaultKey(expr) == Some(key) <==>
      && expr == "backend." + key && key != "" && ('a' <= key[0] <= 'z' || 'A' <= key[0] <= 'Z')
      && forall c <- key :: 'a' <= c <= 'z' || 'A' <= c <= 'Z' || '0' <= c <= '9' || c == '_' || c == '-'
  {
    if DefaultKey(expr) == Some(key) {
      assert expr == expr[..|BACKEND|] + expr[|BACKEND|..];
    }
    if expr == BACKEND + key {
      assert expr[|BACKEND|..] == key;
    }
  }

  /** Labels and defaults are told apart, and parameter templates see no label. */
  lemma ReferencesMean(inputs: Inputs, key: string)
    requires key != "" && '\'' !in key
    ensures ResolveOne(LabelReference(key), inputs) ==
            if inputs.noLabels then Err(LabelRefused(LabelReference(key)))
            else if key in inputs.labels then Ok(inputs.labels[key]) else Err(NoLabel(key))
    ensures Letter(key[0]) && (forall c <- key :: WordChar(c)) ==>
              ResolveOne(BACKEND + key, inputs) == if key in inputs.defaults then Ok(inputs.defaults[key]) else Err(NoDefault(key))
  {
    LabelForm(LabelReference(key), key);
    DefaultForm(BACKEND + key, key);
    assert LabelReference(key)[0] == 'l' && (BACKEND + key)[0] == 'b';
    assert "name"[0] == 'n' && "namespace"[0] == 'n';
  }

  /** The two plain references are the object's name and namespace, never empty. */
  lemma PlainReferences(inputs: Inputs)
    ensures ResolveOne("name", inputs) == if inputs.name == "" then Err(EmptyName) else Ok(inputs.name)
    ensures ResolveOne("namespace", inputs) == if inputs.namespace == "" then Err(EmptyNamespace) else Ok(inputs.namespace)
  {
    assert "namespace" != "name" by {
      assert |"namespace"| == 9;
    }
  }

  /** A reference is refused as unsupported exactly when it has none of the four forms. */
  lemma UnsupportedExactly(expr: string, inputs: Inputs)
    ensures ResolveOne(expr, inputs) == Err(Unsupported(expr)) <==>
      && expr !in {"name", "namespace"}
      && (forall key :: expr == LabelReference(key) ==> key == "" || '\'' in key)
      && (forall key :: expr == BACKEND + key ==> key == "" || !Letter(key[0]) || exists c <- key :: !WordChar(c))
  {
    forall key
      ensures LabelKey(expr) == Some(key) <==> expr == LabelReference(key) && key != "" && '\'' !in key
      ensures DefaultKey(expr) == Some(key) <==> expr == BACKEND + key && key != "" && Letter(key[0]) && forall c <- key :: WordChar(c)
    {
      LabelForm(expr, key);
      DefaultForm(expr, key);
    }
  }

  // ---- Templates as tokens ----

  datatype Token = Literal(c: char) | Reference(expr: string) | Open(offset: nat)

  /** The first position of c in s, or -1. */
  function IndexOf(s: string, c: char): (i: int)
    ensures -1 <= i < |s|
  {
    if s == [] then -1
    else if s[0] == c then 0
    else
      var i := IndexOf(s[1..], c);
      if i < 0 then -1 else i + 1
  }

  lemma {:induction false} IndexOfFirst(before: string, c: char, after: string)
    requires c !in before
    ensures IndexOf(before + [c] + after, c) == |before|
  {
    var s := before + [c] + after;
    if before != [] {
      assert s[1..] == before[1..] + [c] + after;
      IndexOfFirst(before[1..], c, after);
    }
  }

  /** The token at the front of a template, and how many characters it takes.
      `offset`: how much of the template came before. */
  function First(tmpl: string, offset: nat): (r: (Token, nat))
    requires tmpl != []
    ensures 0 < r.1 <= |tmpl|
  {
    if |tmpl| > 1 && tmpl[0] == '$' && tmpl[1] == '$' then (Literal('$'), 2)
    else if |tmpl| > 1 && tmpl[0] == '$' && tmpl[1] == '{' then
      var end := IndexOf(tmpl, '}');
      if end < 2 then (Open(offset), |tmpl|) else (Reference(tmpl[2..end]), end + 1)
    else (Literal(tmpl[0]), 1)
  }

  /** A template cut into tokens, before anything is substituted. */
  function Tokens(tmpl: string, offset: nat): seq<Token>
    decreases |tmpl|
  {
    if tmpl == [] then []
    else
      var (token, n) := First(tmpl, offset);
      [token] + Tokens(tmpl[n..], offset + n)
  }

  /** What a reference stands for. */
  type Resolver = string -> Resolution

  function Value(t: Token, f: Resolver): Resolution {
    match t
    case Literal(c) => Ok([c])
    case Reference(expr) => f(expr)
    case Open(offset) => Err(Unterminated(offset))
  }

  /** The values one after the other, or the first error. */
  function Concat(tokens: seq<Token>, f: Resolver): Resolution {
    if tokens == [] then Ok([])
    else Then(Value(tokens[0], f), Concat(tokens[1..], f))
  }

  function Then(first: Resolution, rest: Resolution): Resolution {
    match first
    case Err(e) => Err(e)
    case Ok(v) =>
      match rest
      case Err(e) => Err(e)
      case Ok(w) => Ok(v + w)
  }

  /** One token at a time, front to back. */
  function Rest(tmpl: string, offset: nat, f: Resolver): Resolution
    decreases |tmpl|
  {
    if tmpl == [] then Ok("")
    else
      var (token, n) := First(tmpl, offset);
      Then(Value(token, f), Rest(tmpl[n..], offset + n, f))
  }

  /** Resolving is cutting into tokens first, then joining their values:
      substituted values are never looked at again. */
  lemma {:induction false} TokensThenValues(tmpl: string, offset: nat, f: Resolver)
    ensures Rest(tmpl, offset, f) == Concat(Tokens(tmpl, offset), f)
    decreases |tmpl|
  {
    hide First;
    if tmpl != [] {
      var (token, n) := First(tmpl, offset);
      TokensThenValues(tmpl[n..], offset + n, f);
      assert Tokens(tmpl, offset)[1..] == Tokens(tmpl[n..], offset + n);
    }
  }

  function Resolving(inputs: Inputs): Resolver {
    (expr: string) => ResolveOne(expr, inputs)
  }

  function Resolved(tmpl: string, inputs: Inputs): Resolution {
    Rest(tmpl, 0, Resolving(inputs))
  }

  lemma ThenUnit(r: Resolution)
    ensures Then(Ok(""), r) == r
  {
    if r.Ok? {
      assert "" + r.value == r.value;
    }
  }

  lemma ThenChain(a: string, b: string, r: Resolution)
    ensures Then(Ok(a), Then(Ok(b), r)) == Then(Ok(a + b), r)
  {
    if r.Ok? {
      assert a + (b + r.value) == a + b + r.value;
    }
  }

  /** The value of the first token moves to what is already built. */
  lemma Advance(b: string, t: string, offset: nat, f: Resolver)
    requires t != []
    ensures
      var (token, n) := First(t, offset);
      match Value(token, f)
      case Ok(v) => Then(Ok(b), Rest(t, offset, f)) == Then(Ok(b + v), Rest(t[n..], offset + n, f))
      case Err(e) => Then(Ok(b), Rest(t, offset, f)) == Err(e)
  {
    var (token, n) := First(t, offset);
    if Value(token, f).Ok? {
      ThenChain(b, Value(token, f).value, Rest(t[n..], offset + n, f));
    }
  }

  lemma ReferenceEnd(t: string)
    requires |t| > 1 && t[0] == '$' && t[1] == '{'
    ensures IndexOf(t, '}') < 0 || IndexOf(t, '}') >= 2
  {
  }

  lemma AdvanceAt(tmpl: string, i: nat, b: string, f: Resolver, goal: Resolution)
    requires i < |tmpl| && goal == Then(Ok(b), Rest(tmpl[i..], i, f))
    ensures
      var (token, n) := First(tmpl[i..], i);
      match Value(token, f)
      case Ok(v) => i + n <= |tmpl| && goal == Then(Ok(b + v), Rest(tmpl[i + n..], i + n, f))
      case Err(e) => goal == Err(e)
  {
    hide First;
    var n := First(tmpl[i..], i).1;
    Advance(b, tmpl[i..], i, f);
    assert tmpl[i..][n..] == tmpl[i + n..];
  }

  lemma AtEnd(tmpl: string, b: string, f: Resolver, goal: Resolution)
    requires goal == Then(Ok(b), Rest(tmpl[|tmpl|..], |tmpl|, f))
    ensures goal == Ok(b)
  {
    assert tmpl[|tmpl|..] == "";
    ThenEmpty(b);
  }

  method Resolve(tmpl: string, inputs: Inputs) returns (r: Resolution)
    ensures r == Resolved(tmpl, inputs)
  {
    if tmpl == "" {
      return Ok("");
    }
    ghost var goal := Resolved(tmpl, inputs);
    assert tmpl[0..] == tmpl;
    ThenUnit(goal);
    r := Walk(tmpl, Resolving(inputs), goal);
  }

  /** The walk over the template; `goal` is what it resolves to. */
  method Walk(tmpl: string, f: Resolver, ghost goal: Resolution) returns (r: Resolution)
    requires goal == Then(Ok(""), Rest(tmpl[0..], 0, f))
    ensures r == goal
  {
    hide Rest, Then;
    var b, i := "", 0;
    while i < |tmpl|
      invariant 0 <= i <= |tmpl|
      invariant goal == Then(Ok(b), Rest(tmpl[i..], i, f))
    {
      AdvanceAt(tmpl, i, b, f, goal);
      if i + 1 < |tmpl| && tmpl[i] == '$' && tmpl[i + 1] == '$' {
        b, i := b + "$", i + 2;
        continue;
      }
      if i + 1 < |tmpl| && tmpl[i] == '$' && tmpl[i + 1] == '{' {
        var end := IndexOf(tmpl[i..], '}');
        ReferenceEnd(tmpl[i..]);
        if end == -1 {
          return Err(Unterminated(i));
        }
        assert tmpl[i..][2..end] == tmpl[i + 2..i + end];
        var value := f(tmpl[i + 2..i + end]);
        if value.Err? {
          return value;
        }
        b, i := b + value.value, i + end + 1;
        continue;
      }
      b, i := b + [tmpl[i]], i + 1;
    }
    AtEnd(tmpl, b, f, goal);
    return Ok(b);
  }

  // ---- What templates can express ----

  /** Every dollar sign doubled. */
  function Escaped(s: string): string {
    if s == [] then [] else Once(s[0]) + Escaped(s[1..])
  }

  function Once(c: char): string {
    if c == '$' then "$$" else [c]
  }

  lemma EscapedHead(c: char, tail: string, offset: nat, f: Resolver)
    ensures Rest(Once(c) + tail, offset, f) == Then(Ok([c]), Rest(tail, offset + |Once(c)|, f))
  {
    var t := Once(c) + tail;
    Advance("", t, offset, f);
    assert t[|Once(c)|..] == tail;
    assert First(t, offset) == (Literal(c), |Once(c)|);
    assert "" + [c] == [c];
    ThenUnit(Rest(t, offset, f));
  }

  lemma EscapedCons(s: string, tmpl: string, offset: nat, f: Resolver, rest: Resolution)
    requires s != []
    requires Rest(Escaped(s[1..]) + tmpl, offset + |Once(s[0])|, f) == Then(Ok(s[1..]), rest)
    ensures Rest(Escaped(s) + tmpl, offset, f) == Then(Ok(s), rest)
  {
    assert Escaped(s) + tmpl == Once(s[0]) + (Escaped(s[1..]) + tmpl);
    EscapedHead(s[0], Escaped(s[1..]) + tmpl, offset, f);
    ThenChain([s[0]], s[1..], rest);
    assert [s[0]] + s[1..] == s;
  }

  /** Text with doubled dollars stands for itself, whatever template follows. */
  lemma {:induction false} EscapedText(s: string, tmpl: string, offset: nat, f: Resolver)
    ensures Rest(Escaped(s) + tmpl, offset, f) == Then(Ok(s), Rest(tmpl, offset + |Escaped(s)|, f))
    decreases |s|
  {
    if s == [] {
      assert Escaped(s) + tmpl == tmpl;
      ThenUnit(Rest(tmpl, offset, f));
    } else {
      EscapedText(s[1..], tmpl, offset + |Once(s[0])|, f);
      EscapedCons(s, tmpl, offset, f, Rest(tmpl, offset + |Escaped(s)|, f));
    }
  }

  lemma RestEmpty(offset: nat, f: Resolver)
    ensures Rest("", offset, f) == Ok("")
  {
  }

  lemma ThenEmpty(s: string)
    ensures Then(Ok(s), Ok("")) == Ok(s)
  {
    assert s + "" == s;
  }

  lemma EscapedAlone(s: string, offset: nat, f: Resolver)
    ensures Rest(Escaped(s), offset, f) == Ok(s)
  {
    EscapedText(s, "", offset, f);
    assert Escaped(s) + "" == Escaped(s);
    RestEmpty(offset + |Escaped(s)|, f);
    ThenEmpty(s);
  }

  /** Doubling every dollar of any text and resolving gives the text back. */
  lemma EscapeRoundTrip(s: string, f: Resolver)
    ensures Rest(Escaped(s), 0, f) == Ok(s)
  {
    EscapedAlone(s, 0, f);
  }

  lemma ReferenceHead(expr: string, tail: string, offset: nat, f: Resolver)
    requires '}' !in expr
    ensures Rest("${" + expr + "}" + tail, offset, f)
         == Then(f(expr), Rest(tail, offset + |expr| + 3, f))
  {
    var t, end := "${" + expr + "}" + tail, |expr| + 2;
    IndexOfFirst("${" + expr, '}', tail);
    assert t[2..end] == expr && t[end + 1..] == tail;
  }

  lemma ReferenceThenText(expr: string, value: string, after: string, offset: nat, f: Resolver)
    requires '}' !in expr && f(expr) == Ok(value)
    ensures Rest("${" + expr + "}" + Escaped(after), offset, f) == Ok(value + after)
  {
    ReferenceHead(expr, Escaped(after), offset, f);
    EscapedAlone(after, offset + |expr| + 3, f);
  }

  /** A reference stands for its value as it is, also when the value looks like a
      template itself. */
  lemma ReferenceVerbatim(before: string, expr: string, value: string, after: string, f: Resolver)
    requires '}' !in expr && f(expr) == Ok(value)
    ensures Rest(Escaped(before) + ("${" + expr + "}" + Escaped(after)), 0, f) == Ok(before + (value + after))
  {
    var tail := "${" + expr + "}" + Escaped(after);
    EscapedText(before, tail, 0, f);
    ReferenceThenText(expr, value, after, |Escaped(before)|, f);
  }

  /** An unresolvable reference fails the template, whatever follows it. */
  lemma ReferenceFails(before: string, expr: string, e: Error, tail: string, f: Resolver)
    requires '}' !in expr && f(expr) == Err(e)
    ensures Rest(Escaped(before) + ("${" + expr + "}" + tail), 0, f) == Err(e)
  {
    EscapedText(before, "${" + expr + "}" + tail, 0, f);
    ReferenceHead(expr, tail, |Escaped(before)|, f);
  }

  lemma {:induction false} IndexOfNone(s: string, c: char)
    requires c !in s
    ensures IndexOf(s, c) == -1
    decreases |s|
  {
    if s != [] {
      IndexOfNone(s[1..], c);
    }
  }

  /** So does an opened reference that is never closed, at the offset where it opens. */
  lemma OpenFails(before: string, tail: string, f: Resolver)
    requires '}' !in tail
    ensures Rest(Escaped(before) + ("${" + tail), 0, f) == Err(Unterminated(|Escaped(before)|))
  {
    EscapedText(before, "${" + tail, 0, f);
    IndexOfNone("${" + tail, '}');
  }

  /** A dollar sign before anything but another or a brace stands for itself. */
  lemma LoneDollar(c: char, tail: string, offset: nat, f: Resolver)
    requires c != '$' && c != '{'
    ensures Rest("$" + ([c] + tail), offset, f) == Then(Ok("$"), Rest([c] + tail, offset + 1, f))
    ensures Rest("$", offset, f) == Ok("$")
  {
    var t := "$" + ([c] + tail);
    assert t[0] == '$' && t[1] == c && t[1..] == [c] + tail;
    assert ['$'] == "$" && "$"[1..] == "";
    RestEmpty(offset + 1, f);
    ThenEmpty("$");
  }

  // ---- Parameters ----

  /** Parameter templates see no labels. */
  function Restricted(inputs: Inputs): Inputs {
    inputs.(labels := map[], noLabels := true)
  }

  datatype ParameterError = ParameterError(key: string, why: Error)

  /** What a parameter's template stands for. */
  function Meaning(inputs: Inputs): Resolver {
    (tmpl: string) => Resolved(tmpl, Restricted(inputs))
  }

  /** Declared keys resolved from the given parameters, the others as they are. */
  ghost predicate Pointwise(params: map<string, string>, keys: set<string>, meaning: Resolver, out: map<string, string>) {
    out.Keys == params.Keys &&
    forall k <- params :: if k in keys then meaning(params[k]) == Ok(out[k]) else out[k] == params[k]
  }

  function Elements(keys: seq<string>): set<string> {
    set k | k in keys
  }

  predicate Fails(params: map<string, string>, k: string, meaning: Resolver) {
    k in params && meaning(params[k]).Err?
  }

  lemma PointwiseNext(params: map<string, string>, keys: set<string>, k: string, meaning: Resolver, out: map<string, string>)
    requires Pointwise(params, keys, meaning, out)
    ensures k !in params ==> Pointwise(params, keys + {k}, meaning, out)
    ensures k in params && meaning(params[k]).Ok? ==>
              && Pointwise(params, keys + {k}, meaning, out[k := meaning(params[k]).value])
              && (meaning(params[k]).value == params[k] ==> Pointwise(params, keys + {k}, meaning, out))
  {
  }

  predicate NoneFails(params: map<string, string>, keys: seq<string>, meaning: Resolver) {
    forall i | 0 <= i < |keys| :: !Fails(params, keys[i], meaning)
  }

  /** The i-th declared key is the first that does not resolve. */
  predicate FailsFirst(params: map<string, string>, keys: seq<string>, i: nat, meaning: Resolver, e: ParameterError) {
    && i < |keys| && keys[i] == e.key && keys[i] in params && meaning(params[keys[i]]) == Err(e.why)
    && NoneFails(params, keys[..i], meaning)
  }

  lemma SomeFails(params: map<string, string>, keys: seq<string>, i: nat, meaning: Resolver, e: ParameterError)
    requires FailsFirst(params, keys, i, meaning, e)
    ensures !NoneFails(params, keys, meaning)
  {
    assert Fails(params, keys[i], meaning);
  }

  lemma FirstExactly(params: map<string, string>, keys: seq<string>, i: nat, meaning: Resolver, e: ParameterError)
    requires FailsFirst(params, keys, i, meaning, e)
    ensures keys[i] == e.key && keys[i] in params && meaning(params[keys[i]]) == Err(e.why)
    ensures forall j | 0 <= j < i :: keys[j] in params ==> meaning(params[keys[j]]).Ok?
  {
    forall j | 0 <= j < i && keys[j] in params ensures meaning(params[keys[j]]).Ok? {
      assert keys[..i][j] == keys[j] && !Fails(params, keys[..i][j], meaning);
    }
  }

  lemma TakeOne(keys: seq<string>, i: nat)
    requires i < |keys|
    ensures keys[..i + 1] == keys[..i] + [keys[i]] && Elements(keys[..i + 1]) == Elements(keys[..i]) + {keys[i]}
  {
    assert keys[..i + 1] == keys[..i] + [keys[i]];
  }

  lemma OneMoreFine(params: map<string, string>, keys: seq<string>, i: nat, meaning: Resolver)
    requires i < |keys| && NoneFails(params, keys[..i], meaning) && !Fails(params, keys[i], meaning)
    ensures NoneFails(params, keys[..i + 1], meaning)
  {
    TakeOne(keys, i);
  }

  method ResolveParameter(tmpl: string, inputs: Inputs) returns (r: Resolution)
    ensures r == Meaning(inputs)(tmpl)
  {
    r := Resolve(tmpl, Restricted(inputs));
  }

  /** A copy is made only when a value changes; every declared key is resolved
      from the parameters as given. */
  method ResolveParameters(params: map<string, string>, keys: seq<string>, inputs: Inputs)
    returns (r: Result<map<string, string>, ParameterError>)
    ensures r.Ok? ==> Pointwise(params, Elements(keys), Meaning(inputs), r.value)
    ensures r.Ok? <==> NoneFails(params, keys, Meaning(inputs))
    ensures r.Err? ==> exists i: nat :: FailsFirst(params, keys, i, Meaning(inputs), r.error)
    // the first declared key that does not resolve, with the reason it does not
    ensures r.Err? ==>
      exists i | 0 <= i < |keys| ::
        && keys[i] == r.error.key && keys[i] in params && Meaning(inputs)(params[keys[i]]) == Err(r.error.why)
        && forall j | 0 <= j < i :: keys[j] in params ==> Meaning(inputs)(params[keys[j]]).Ok?
  {
    if |params| == 0 || |keys| == 0 {
      return Ok(params);
    }
    hide Meaning;
    var out: Option<map<string, string>> := None;
    for i := 0 to |keys|
      invariant NoneFails(params, keys[..i], Meaning(inputs))
      invariant Pointwise(params, Elements(keys[..i]), Meaning(inputs), if out.None? then params else out.value)
    {
      TakeOne(keys, i);
      PointwiseNext(params, Elements(keys[..i]), keys[i], Meaning(inputs), if out.None? then params else out.value);
      var k := keys[i];
      if k !in params {
        OneMoreFine(params, keys, i, Meaning(inputs));
        continue;
      }
      var resolved := ResolveParameter(params[k], inputs);
      if resolved.Err? {
        var e := ParameterError(k, resolved.error);
        assert FailsFirst(params, keys, i, Meaning(inputs), e);
        SomeFails(params, keys, i, Meaning(inputs), e);
        FirstExactly(params, keys, i, Meaning(inputs), e);
        return Err(e);
      }
      OneMoreFine(params, keys, i, Meaning(inputs));
      if resolved.value == params[k] {
        continue;
      }
      if out.None? {
        out := Some(params);
      }
      out := Some(out.value[k := resolved.value]);
    }
    assert keys[..|keys|] == keys;
    return Ok(if out.None? then params else out.value);
  }

  /** One result for every order of the declared keys. */
  lemma PointwiseUnique(params: map<string, string>, keys: set<string>, meaning: Resolver, a: map<string, string>, b: map<string, string>)
    requires Pointwise(params, keys, meaning, a) && Pointwise(params, keys, meaning, b)
    ensures a == b
  {
    assert forall k <- params :: a[k] == b[k];
  }
}
