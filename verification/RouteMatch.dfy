/**
 Whether a route's conditions hold of a request. The simple form evaluates every condition
 directly; the loaded form uses regular expressions compiled beforehand and aligned with the
 conditions by position. The regular-expression engine is a parameter.
 */
module RouteMatch {
  import opened Common
  import opened HostMatch

  datatype Engine = Engine(compiles: Bytes -> bool, finds: (Bytes, Bytes) -> bool)

  datatype PathMatch = ExactPath(text: Bytes) | PrefixPath(text: Bytes) | RegexPath(text: Bytes)

  datatype MatchOp = Exact | Prefix | Regex | NotEmpty

  /** One header or query condition. */
  datatype FieldMatch = FieldMatch(key: Bytes, op: MatchOp, value: Bytes)

  datatype Field = Field(key: Bytes, value: Bytes)

  datatype Conditions = Conditions(path: PathMatch, methods: Option<seq<Bytes>>, host: Option<Bytes>,
                                   headers: seq<FieldMatch>, query: seq<FieldMatch>)

  datatype Info = Info(path: Bytes, method_: Option<Bytes>, host: Option<Bytes>, headers: seq<Field>, query: seq<Field>)

  predicate StartsWith(s: Bytes, prefix: Bytes) { prefix <= s }

  lemma StartsWithIff(s: Bytes, prefix: Bytes)
    ensures StartsWith(s, prefix) <==> exists rest: Bytes :: s == prefix + rest
  {
    if StartsWith(s, prefix) { assert s == prefix + s[|prefix|..]; }
  }

  predicate SameKey(a: Bytes, b: Bytes, ignoreCase: bool) { if ignoreCase then SameIgnoringCase(a, b) else a == b }

  // ---------- conditions as written ----------

  predicate ValueHolds(rx: Engine, fm: FieldMatch, value: Bytes) {
    match fm.op
    case Exact => value == fm.value
    case Prefix => StartsWith(value, fm.value)
    case Regex => rx.finds(fm.value, value)
    case NotEmpty => value != []
  }

  predicate FieldHolds(rx: Engine, fm: FieldMatch, fields: seq<Field>, ignoreCase: bool) {
    exists f :: f in fields && SameKey(f.key, fm.key, ignoreCase) && ValueHolds(rx, fm, f.value)
  }

  predicate PathHolds(rx: Engine, pm: PathMatch, path: Bytes) {
    match pm
    case ExactPath(p) => path == p
    case PrefixPath(p) => StartsWith(path, p)
    case RegexPath(p) => rx.finds(p, path)
  }

  ghost predicate RequestLineHolds(rx: Engine, c: Conditions, info: Info) {
    && PathHolds(rx, c.path, info.path)
    && (c.methods.Some? ==>
          info.method_.Some? && exists m :: m in c.methods.value && SameIgnoringCase(m, info.method_.value))
    && (c.host.Some? ==> info.host.Some? && Accepts(c.host.value, info.host.value))
  }

  ghost predicate Holds(rx: Engine, c: Conditions, info: Info) {
    && RequestLineHolds(rx, c, info)
    && (forall fm :: fm in c.headers ==> FieldHolds(rx, fm, info.headers, true))
    && (forall fm :: fm in c.query ==> FieldHolds(rx, fm, info.query, false))
  }

  /** Every regular expression of the conditions compiles. */
  predicate Compilable(rx: Engine, c: Conditions) {
    && (c.path.RegexPath? ==> rx.compiles(c.path.text))
    && (forall fm :: fm in c.headers && fm.op.Regex? ==> rx.compiles(fm.value))
    && (forall fm :: fm in c.query && fm.op.Regex? ==> rx.compiles(fm.value))
  }

  // ---------- compiled beforehand ----------

  /** A compiled expression is represented by its pattern. */
  datatype Compiled = Compiled(path: Option<Bytes>, headers: seq<Option<Bytes>>, query: seq<Option<Bytes>>)

  function CompileSafe(rx: Engine, pattern: Bytes): Option<Bytes> {
    if rx.compiles(pattern) then Some(pattern) else None
  }

  function CompileFields(rx: Engine, fms: seq<FieldMatch>): (r: seq<Option<Bytes>>)
    ensures |r| == |fms|
    ensures forall i :: 0 <= i < |fms| ==> r[i] == if fms[i].op.Regex? then CompileSafe(rx, fms[i].value) else None
  {
    if fms == [] then []
    else [if fms[0].op.Regex? then CompileSafe(rx, fms[0].value) else None] + CompileFields(rx, fms[1..])
  }

  function Compile(rx: Engine, c: Conditions): Compiled {
    Compiled(if c.path.RegexPath? then CompileSafe(rx, c.path.text) else None,
             CompileFields(rx, c.headers), CompileFields(rx, c.query))
  }

  predicate Finds(rx: Engine, regex: Option<Bytes>, text: Bytes) { regex.Some? && rx.finds(regex.value, text) }

  predicate MatchPath(rx: Engine, pm: PathMatch, path: Bytes, regex: Option<Bytes>) {
    match pm
    case ExactPath(p) => path == p
    case PrefixPath(p) => StartsWith(path, p)
    case RegexPath(_) => Finds(rx, regex, path)
  }

  predicate MatchField(rx: Engine, fm: FieldMatch, fields: seq<Field>, regex: Option<Bytes>, ignoreCase: bool) {
    match fm.op
    case Exact => exists f :: f in fields && SameKey(f.key, fm.key, ignoreCase) && f.value == fm.value
    case Prefix => exists f :: f in fields && SameKey(f.key, fm.key, ignoreCase) && StartsWith(f.value, fm.value)
    case Regex => exists f :: f in fields && SameKey(f.key, fm.key, ignoreCase) && Finds(rx, regex, f.value)
    case NotEmpty => exists f :: f in fields && SameKey(f.key, fm.key, ignoreCase) && f.value != []
  }

  predicate MatchRequestLine(rx: Engine, c: Conditions, m: Compiled, info: Info) {
    && MatchPath(rx, c.path, info.path, m.path)
    && (c.methods.Some? ==>
          info.method_.Some? && exists x :: x in c.methods.value && SameIgnoringCase(x, info.method_.value))
    && (c.host.Some? ==> info.host.Some? && HostMatch.Matches(c.host.value, info.host.value))
  }

  /** All the conditions, each with the compiled expression at its own position. */
  predicate MatchFields(
    rx: Engine, fms: seq<FieldMatch>, fields: seq<Field>, regexes: seq<Option<Bytes>>, ignoreCase: bool)
    requires |regexes| == |fms|
  {
    forall i :: 0 <= i < |fms| ==> MatchField(rx, fms[i], fields, regexes[i], ignoreCase)
  }

  predicate Aligned(c: Conditions, m: Compiled) { |m.headers| == |c.headers| && |m.query| == |c.query| }

  predicate Matches(rx: Engine, c: Conditions, m: Compiled, info: Info)
    requires Aligned(c, m)
  {
    && MatchRequestLine(rx, c, m, info)
    && MatchFields(rx, c.headers, info.headers, m.headers, true)
    && MatchFields(rx, c.query, info.query, m.query, false)
  }

  // ---------- the two agree ----------

  lemma FieldAgrees(rx: Engine, fm: FieldMatch, fields: seq<Field>, regex: Option<Bytes>, ignoreCase: bool)
    requires fm.op.Regex? ==> regex == Some(fm.value)
    ensures MatchField(rx, fm, fields, regex, ignoreCase) <==> FieldHolds(rx, fm, fields, ignoreCase)
  {
  }

  lemma FieldsAgree(rx: Engine, fms: seq<FieldMatch>, fields: seq<Field>, ignoreCase: bool)
    requires forall fm :: fm in fms && fm.op.Regex? ==> rx.compiles(fm.value)
    ensures MatchFields(rx, fms, fields, CompileFields(rx, fms), ignoreCase) <==>
              forall fm :: fm in fms ==> FieldHolds(rx, fm, fields, ignoreCase)
  {
    var regexes := CompileFields(rx, fms);
    forall i | 0 <= i < |fms|
      ensures MatchField(rx, fms[i], fields, regexes[i], ignoreCase) <==> FieldHolds(rx, fms[i], fields, ignoreCase)
    {
      assert fms[i] in fms;
      FieldAgrees(rx, fms[i], fields, regexes[i], ignoreCase);
    }
  }

  /** Matching with precompiled expressions is matching the conditions as written, when they all compile. */
  lemma CompiledAgrees(rx: Engine, c: Conditions, info: Info)
    requires Compilable(rx, c)
    ensures Matches(rx, c, Compile(rx, c), info) <==> Holds(rx, c, info)
  {
    FieldsAgree(rx, c.headers, info.headers, true);
    FieldsAgree(rx, c.query, info.query, false);
    if c.host.Some? && info.host.Some? { MatchesIffAccepts(c.host.value, info.host.value); }
  }

  /** Without header conditions the headers do not matter. */
  lemma HeadersDoNotMatter(rx: Engine, c: Conditions, m: Compiled, info: Info, headers: seq<Field>)
    requires Aligned(c, m) && c.headers == []
    ensures Matches(rx, c, m, info) <==> Matches(rx, c, m, info.(headers := headers))
  {
  }
}
