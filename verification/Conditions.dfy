/**
 The condition language of custom rules and rate limits: validation, compilation and
 matching (services/gateway/internal/policy/store.go), and the control plane's own
 validation of the same trees (services/control-api/internal/httpapi/server.go).
 */
module Conditions {
  import opened Common
  import opened Text
  import opened Addresses
  import opened Hosts

  // ---------------------------------------------------------------- header names

  /** A byte allowed in a header field name (`token` in section 5.6.2 of RFC 9110). */
  predicate TokenChar(c: char) {
    || 'a' <= c <= 'z' || 'A' <= c <= 'Z' || '0' <= c <= '9'
    || c == '!' || '#' <= c <= '\'' || c == '*' || c == '+' || c == '-' || c == '.'
    || c == '^' || c == '_' || c == '`' || c == '|' || c == '~'
  }

  /** `http.CanonicalHeaderKey`: names with other bytes are returned unchanged. */
  function CanonicalHeaderKey(s: string): (r: string)
    ensures |r| == |s|
  {
    if Token(s) then Capitalised(s) else s
  }

  predicate Leads(s: string, i: nat)
    requires i < |s|
  {
    i == 0 || s[i - 1] == '-'
  }

  /** The first letter and those after a hyphen as capitals, the others small. */
  function Capitalised(s: string): (r: string)
    ensures |r| == |s| && forall i :: 0 <= i < |s| ==> r[i] == if Leads(s, i) then UpperChar(s[i]) else LowerChar(s[i])
  {
    seq(|s|, i requires 0 <= i < |s| => if Leads(s, i) then UpperChar(s[i]) else LowerChar(s[i]))
  }

  function CanonicalHeaderName(name: string): string {
    CanonicalHeaderKey(TrimSpace(name))
  }

  predicate Token(s: string) {
    forall c :: c in s ==> TokenChar(c)
  }

  lemma CaseKeepsToken(c: char)
    ensures TokenChar(c) ==> TokenChar(UpperChar(c)) && TokenChar(LowerChar(c))
    ensures (UpperChar(c) == '-' <==> c == '-') && (LowerChar(c) == '-' <==> c == '-')
    ensures UpperChar(UpperChar(c)) == UpperChar(c) && LowerChar(LowerChar(c)) == LowerChar(c)
  {
  }

  lemma CanonicalKeyIdempotent(t: string)
    requires Token(t)
    ensures Token(CanonicalHeaderKey(t))
    ensures CanonicalHeaderKey(CanonicalHeaderKey(t)) == CanonicalHeaderKey(t)
  {
    var r := CanonicalHeaderKey(t);
    forall i | 0 <= i < |r| ensures TokenChar(r[i]) && (r[i] == '-' <==> t[i] == '-') {
      assert t[i] in t;
      CaseKeepsToken(t[i]);
    }
    assert Token(r);
    forall i | 0 <= i < |r| ensures CanonicalHeaderKey(r)[i] == r[i] {
      CaseKeepsToken(t[i]);
    }
  }

  /** `r` is `c` as a capital, or as a small letter. */
  ghost predicate Cased(r: char, c: char, capital: bool) {
    && SameLetter(r, c) && (r == '-' <==> c == '-')
    && if capital then !('a' <= r <= 'z') else !('A' <= r <= 'Z')
  }

  lemma CaseOfChar(c: char)
    ensures Cased(UpperChar(c), c, true) && Cased(LowerChar(c), c, false)
  {
  }

  lemma CapitalisedAt(s: string, i: nat)
    requires i < |s|
    ensures Cased(Capitalised(s)[i], s[i], Leads(s, i)) && Leads(Capitalised(s), i) == Leads(s, i)
  {
    CaseOfChar(s[i]);
    if i > 0 { CaseOfChar(s[i - 1]); }
  }

  /** A canonical name has a capital at the start and after each hyphen, small letters elsewhere, and is the same name. */
  lemma CanonicalHeaderForm(s: string)
    requires Token(s)
    ensures var r := CanonicalHeaderKey(s); forall i :: 0 <= i < |r| ==> Cased(r[i], s[i], Leads(r, i))
  {
    var r := Capitalised(s);
    forall i | 0 <= i < |r| ensures Cased(r[i], s[i], Leads(r, i)) {
      CapitalisedAt(s, i);
    }
  }

  lemma FoldKeepsToken(a: string, b: string)
    requires Token(a) && EqualFold(a, b)
    ensures Token(b)
  {
    forall c | c in b ensures TokenChar(c) {
      var i :| 0 <= i < |b| && b[i] == c;
      assert a[i] in a && SameLetter(a[i], b[i]);
    }
  }

  lemma SameCanonical(a: string, b: string)
    requires Token(a) && EqualFold(a, b)
    ensures CanonicalHeaderKey(a) == CanonicalHeaderKey(b)
  {
    FoldKeepsToken(a, b);
    forall i | 0 <= i < |a| ensures CanonicalHeaderKey(a)[i] == CanonicalHeaderKey(b)[i] {
      CaseOfLetter(a[i], b[i]);
      assert i > 0 ==> SameLetter(a[i - 1], b[i - 1]);
    }
  }

  lemma FoldTogether(c: string, a: string, b: string)
    requires EqualFold(c, a) && EqualFold(c, b)
    ensures EqualFold(a, b)
  {
    forall i | 0 <= i < |a| ensures SameLetter(a[i], b[i]) {
      assert SameLetter(c[i], a[i]) && SameLetter(c[i], b[i]);
    }
  }

  lemma CanonicalFolds(s: string)
    ensures EqualFold(CanonicalHeaderKey(s), s)
  {
    if Token(s) { CanonicalHeaderForm(s); }
  }

  /** Header names are the same to the gateway exactly if they differ in case only (section 5.1 of RFC 9110). */
  lemma SameHeaderIff(a: string, b: string)
    requires Token(a)
    ensures CanonicalHeaderKey(a) == CanonicalHeaderKey(b) <==> EqualFold(a, b)
  {
    CanonicalFolds(a);
    CanonicalFolds(b);
    if CanonicalHeaderKey(a) == CanonicalHeaderKey(b) {
      FoldTogether(CanonicalHeaderKey(a), a, b);
    }
    if EqualFold(a, b) {
      SameCanonical(a, b);
    }
  }

  lemma TokenTrim(s: string)
    requires Token(s)
    ensures TrimSpace(s) == s
  {
    if s != "" {
      assert s[0] in s && s[|s| - 1] in s;
    }
  }

  /** Canonicalising a header name a second time changes nothing. */
  lemma CanonicalHeaderNameIdempotent(name: string)
    ensures CanonicalHeaderName(CanonicalHeaderName(name)) == CanonicalHeaderName(name)
  {
    var t := TrimSpace(name);
    TrimIdempotent(name, IsSpace);
    if Token(t) {
      CanonicalKeyIdempotent(t);
      TokenTrim(CanonicalHeaderKey(t));
    }
  }

  // ---------------------------------------------------------------- condition trees

  datatype NameValue = NameValue(name: string, value: string)

  /**
   A node as configured, as stored by the control plane and as compiled: the three Go
   types have the same fields. A node is meant to set exactly one of them.
   */
  datatype Condition = Condition(
    all: seq<Condition>,
    anyOf: seq<Condition>,
    methodEquals: string,
    pathEquals: string,
    pathStartsWith: string,
    hostEquals: string,
    headerContains: Option<NameValue>,
    headerEquals: Option<NameValue>,
    queryContains: Option<NameValue>,
    ipInSet: string,
    ipNotInSet: string)

  datatype RequestContext = RequestContext(
    verb: string,
    path: string,
    host: string,
    headers: map<string, seq<string>>,
    query: map<string, seq<string>>,
    clientIp: Addr)

  function Values(m: map<string, seq<string>>, name: string): seq<string> {
    if name in m then m[name] else []
  }

  predicate HeaderContains(headers: map<string, seq<string>>, nv: NameValue) {
    exists got | got in Values(headers, CanonicalHeaderName(nv.name)) :: Contains(got, nv.value)
  }

  predicate HeaderEquals(headers: map<string, seq<string>>, nv: NameValue) {
    nv.value in Values(headers, CanonicalHeaderName(nv.name))
  }

  predicate QueryContains(query: map<string, seq<string>>, nv: NameValue) {
    exists got | got in Values(query, nv.name) :: Contains(got, nv.value)
  }

  function SetOf(sets: map<string, seq<Prefix>>, name: string): seq<Prefix> {
    if name in sets then sets[name] else []
  }

  /** `Condition.Match`: the fields are tried in this order and the first one set decides. */
  predicate Match(c: Condition, ctx: RequestContext, sets: map<string, seq<Prefix>>) {
    if c.all != [] then forall child | child in c.all :: Match(child, ctx, sets)
    else if c.anyOf != [] then exists child | child in c.anyOf :: Match(child, ctx, sets)
    else if c.methodEquals != "" then ToLower(ctx.verb) == ToLower(c.methodEquals)
    else if c.pathEquals != "" then ctx.path == c.pathEquals
    else if c.pathStartsWith != "" then c.pathStartsWith <= ctx.path
    else if c.hostEquals != "" then NormalizeHost(ctx.host) == NormalizeHost(c.hostEquals)
    else if c.headerContains.Some? then HeaderContains(ctx.headers, c.headerContains.value)
    else if c.headerEquals.Some? then HeaderEquals(ctx.headers, c.headerEquals.value)
    else if c.queryContains.Some? then QueryContains(ctx.query, c.queryContains.value)
    else if c.ipInSet != "" then InAny(SetOf(sets, c.ipInSet), ctx.clientIp)
    else if c.ipNotInSet != "" then !InAny(SetOf(sets, c.ipNotInSet), ctx.clientIp)
    else false
  }

  function One(b: bool): nat {
    if b then 1 else 0
  }

  /** The `operators` counter of both validators. */
  function Operators(c: Condition): nat {
    One(c.all != []) + One(c.anyOf != []) + One(c.methodEquals != "") + One(c.pathEquals != "")
    + One(c.pathStartsWith != "") + One(c.hostEquals != "") + One(c.headerContains.Some?)
    + One(c.headerEquals.Some?) + One(c.queryContains.Some?) + One(c.ipInSet != "") + One(c.ipNotInSet != "")
  }

  /** The condition that sets nothing; a rate limit with it is for every request. */
  const NO_CONDITION := Condition([], [], "", "", "", "", None, None, None, "", "")

  predicate HasCondition(c: Condition): (has: bool)
    ensures has <==> c != NO_CONDITION
  {
    || c.all != [] || c.anyOf != [] || c.methodEquals != "" || c.pathEquals != ""
    || c.pathStartsWith != "" || c.hostEquals != "" || c.headerContains.Some?
    || c.headerEquals.Some? || c.queryContains.Some? || c.ipInSet != "" || c.ipNotInSet != ""
  }

  predicate PairComplete(nv: Option<NameValue>) {
    nv.Some? ==> nv.value.name != "" && nv.value.value != ""
  }

  /** `validateCondition`: one node, without its children. */
  predicate ValidNode(c: Condition, names: set<string>) {
    && Operators(c) == 1
    && PairComplete(c.headerContains) && PairComplete(c.headerEquals) && PairComplete(c.queryContains)
    && (c.ipInSet != "" ==> c.ipInSet in names)
    && (c.ipNotInSet != "" ==> c.ipNotInSet in names)
  }

  function CanonicalPair(nv: Option<NameValue>): Option<NameValue> {
    if nv.Some? then Some(NameValue(CanonicalHeaderName(nv.value.name), nv.value.value)) else None
  }

  /** `parseCondition`: validate the node, then compile its children. */
  function ParseCondition(c: Condition, names: set<string>): Result<Condition>
    decreases c, 1
  {
    if !ValidNode(c, names) then Err
    else
      var all := ParseEach(c.all, names);
      if all.Err? then Err
      else
        var anyOf := ParseEach(c.anyOf, names);
        if anyOf.Err? then Err
        else Ok(c.(all := all.value, anyOf := anyOf.value,
                headerContains := CanonicalPair(c.headerContains),
                headerEquals := CanonicalPair(c.headerEquals)))
  }

  function ParseEach(cs: seq<Condition>, names: set<string>): (r: Result<seq<Condition>>)
    ensures r.Ok? ==> |r.value| == |cs|
    decreases cs, 0
  {
    if cs == [] then Ok([])
    else
      var first := ParseCondition(cs[0], names);
      if first.Err? then Err
      else
        var rest := ParseEach(cs[1..], names);
        if rest.Err? then Err else Ok([first.value] + rest.value)
  }

  lemma {:induction false} ParseEachSpec(cs: seq<Condition>, names: set<string>)
    ensures ParseEach(cs, names).Ok? <==> forall i :: 0 <= i < |cs| ==> ParseCondition(cs[i], names).Ok?
    ensures ParseEach(cs, names).Ok? ==>
              forall i :: 0 <= i < |cs| ==> ParseCondition(cs[i], names) == Ok(ParseEach(cs, names).value[i])
  {
    if cs != [] {
      ParseEachSpec(cs[1..], names);
      assert forall i :: 0 < i < |cs| ==> cs[i] == cs[1..][i - 1];
    }
  }

  // ---------------------------------------------------------------- meaning

  /** The language without optional fields: every node is one operator. */
  datatype Expr =
    | All(es: seq<Expr>)
    | AnyOf(es: seq<Expr>)
    | MethodIs(verb: string)
    | PathIs(path: string)
    | PathBegins(path: string)
    | HostIs(host: string)
    | HeaderHas(pair: NameValue)
    | HeaderIs(pair: NameValue)
    | QueryHas(pair: NameValue)
    | InSet(name: string)
    | NotInSet(name: string)

  /** `e` is a reading of `c`: some field that is set says what `e` says. No field comes first. */
  ghost predicate Reads(c: Condition, e: Expr)
    decreases e
  {
    match e
    case All(es) => c.all != [] && |es| == |c.all| && forall i :: 0 <= i < |es| ==> Reads(c.all[i], es[i])
    case AnyOf(es) => c.anyOf != [] && |es| == |c.anyOf| && forall i :: 0 <= i < |es| ==> Reads(c.anyOf[i], es[i])
    case MethodIs(m) => m != "" && c.methodEquals == m
    case PathIs(p) => p != "" && c.pathEquals == p
    case PathBegins(p) => p != "" && c.pathStartsWith == p
    case HostIs(h) => h != "" && c.hostEquals == h
    case HeaderHas(nv) => c.headerContains == Some(nv)
    case HeaderIs(nv) => c.headerEquals == Some(nv)
    case QueryHas(nv) => c.queryContains == Some(nv)
    case InSet(n) => n != "" && c.ipInSet == n
    case NotInSet(n) => n != "" && c.ipNotInSet == n
  }

  /** Membership in a configured set: some entry parses and covers the address. */
  ghost predicate InConfiguredSet(sets: map<string, seq<CidrText>>, name: string, ip: Addr) {
    name in sets && exists t :: t in sets[name] && t.inner.Some? && Covers(t.inner.value, ip)
  }

  /** The request carries the value `v` under the name: one of its headers, or of its query parameters. */
  ghost predicate Carries(m: map<string, seq<string>>, name: string, v: string) {
    name in m && v in m[name]
  }

  /** What an expression says of a request, in terms of the configured sets. */
  ghost predicate Holds(e: Expr, ctx: RequestContext, sets: map<string, seq<CidrText>>) {
    match e
    case All(es) => forall i :: 0 <= i < |es| ==> Holds(es[i], ctx, sets)
    case AnyOf(es) => exists i :: 0 <= i < |es| && Holds(es[i], ctx, sets)
    case MethodIs(m) => EqualFold(ctx.verb, m)
    case PathIs(p) => ctx.path == p
    case PathBegins(p) => exists rest :: MadeOf(ctx.path, "", p, rest)
    case HostIs(h) => NormalizeHost(ctx.host) == NormalizeHost(h)
    case HeaderHas(nv) => exists v :: Carries(ctx.headers, CanonicalHeaderName(nv.name), v) && Within(v, nv.value)
    case HeaderIs(nv) => Carries(ctx.headers, CanonicalHeaderName(nv.name), nv.value)
    case QueryHas(nv) => exists v :: Carries(ctx.query, nv.name, v) && Within(v, nv.value)
    case InSet(n) => InConfiguredSet(sets, n, ctx.clientIp)
    case NotInSet(n) => !InConfiguredSet(sets, n, ctx.clientIp)
  }

  /** `parsePrefixes`: trim, parse and mask each entry; one bad entry fails the list. */
  function ParsePrefixes(values: seq<CidrText>): Result<seq<Prefix>> {
    if forall v :: v in values ==> v.inner.Some?
    then Ok(seq(|values|, i requires 0 <= i < |values| => assert values[i] in values; Masked(values[i].inner.value)))
    else Err
  }

  /** The compiled sets hold the same addresses as the configured ones, name by name. */
  ghost predicate SetsCompiled(sets: map<string, seq<CidrText>>, compiled: map<string, seq<Prefix>>) {
    && compiled.Keys == sets.Keys
    && forall n :: n in sets ==> ParsePrefixes(sets[n]) == Ok(compiled[n])
  }

  lemma CompiledSetMembers(sets: map<string, seq<CidrText>>, compiled: map<string, seq<Prefix>>, n: string, ip: Addr)
    requires SetsCompiled(sets, compiled) && n in sets
    ensures InAny(SetOf(compiled, n), ip) == InConfiguredSet(sets, n, ip)
  {
    var vs, ps := sets[n], compiled[n];
    assert forall i :: 0 <= i < |vs| ==> vs[i] in vs && vs[i].inner.Some? && ps[i] == Masked(vs[i].inner.value);
    MaskedMembers(vs, ps, ip);
  }

  lemma MaskedMembers(vs: seq<CidrText>, ps: seq<Prefix>, ip: Addr)
    requires |vs| == |ps| && forall i :: 0 <= i < |vs| ==> vs[i].inner.Some? && ps[i] == Masked(vs[i].inner.value)
    ensures InAny(ps, ip) <==> exists t :: t in vs && t.inner.Some? && Covers(t.inner.value, ip)
  {
    forall i | 0 <= i < |vs| ensures InPrefix(ps[i], ip) <==> Covers(vs[i].inner.value, ip) {
      MaskedKeepsMembers(vs[i].inner.value, ip);
    }
    if InAny(ps, ip) {
      var p :| p in ps && InPrefix(p, ip);
      var i :| 0 <= i < |ps| && ps[i] == p;
      assert vs[i] in vs;
    }
    if t :| t in vs && t.inner.Some? && Covers(t.inner.value, ip) {
      var i :| 0 <= i < |vs| && vs[i] == t;
      assert ps[i] in ps;
    }
  }

  /**
   Compilation preserves meaning: any reading of an accepted tree, whichever field it
   was read from, agrees with `Match` on the compiled tree for every request.
   */
  lemma {:induction false} CompiledMeaning(
    c: Condition, e: Expr, ctx: RequestContext, sets: map<string, seq<CidrText>>, compiled: map<string, seq<Prefix>>)
    requires SetsCompiled(sets, compiled)
    requires ParseCondition(c, sets.Keys).Ok? && Reads(c, e)
    ensures Match(ParseCondition(c, sets.Keys).value, ctx, compiled) == Holds(e, ctx, sets)
    decreases e
  {
    match e {
      case All(es) => ChildrenMeaning(c.all, es, ctx, sets, compiled);
      case AnyOf(es) => ChildrenMeaning(c.anyOf, es, ctx, sets, compiled);
      case _ => LeafMeaning(c, e, ctx, sets, compiled);
    }
  }

  lemma PrefixIff(path: string, p: string)
    ensures p <= path <==> exists rest :: MadeOf(path, "", p, rest)
  {
    if p <= path {
      assert MadeOf(path, "", p, path[|p|..]);
    }
  }

  lemma ValueContains(m: map<string, seq<string>>, name: string, part: string)
    ensures (exists got | got in Values(m, name) :: Contains(got, part)) <==> exists v :: Carries(m, name, v) && Within(v, part)
  {
    forall v ensures Contains(v, part) <==> Within(v, part) {
      ContainsIff(v, part);
    }
    if v :| Carries(m, name, v) && Within(v, part) {
      assert v in Values(m, name);
    }
    if got :| got in Values(m, name) && Contains(got, part) {
      assert Carries(m, name, got);
    }
  }

  lemma LeafMeaning(
    c: Condition, e: Expr, ctx: RequestContext, sets: map<string, seq<CidrText>>, compiled: map<string, seq<Prefix>>)
    requires SetsCompiled(sets, compiled) && !e.All? && !e.AnyOf?
    requires ParseCondition(c, sets.Keys).Ok? && Reads(c, e)
    ensures Match(ParseCondition(c, sets.Keys).value, ctx, compiled) == Holds(e, ctx, sets)
  {
    match e {
      case MethodIs(m) => LowerEqualIff(ctx.verb, m);
      case PathBegins(p) => PrefixIff(ctx.path, p);
      case HeaderHas(nv) =>
        CanonicalHeaderNameIdempotent(nv.name);
        ValueContains(ctx.headers, CanonicalHeaderName(nv.name), nv.value);
      case HeaderIs(nv) => CanonicalHeaderNameIdempotent(nv.name);
      case QueryHas(nv) => ValueContains(ctx.query, nv.name, nv.value);
      case InSet(n) => CompiledSetMembers(sets, compiled, n, ctx.clientIp);
      case NotInSet(n) => CompiledSetMembers(sets, compiled, n, ctx.clientIp);
      case _ =>
    }
  }

  lemma {:induction false} ChildrenMeaning(
    cs: seq<Condition>, es: seq<Expr>, ctx: RequestContext, sets: map<string, seq<CidrText>>, compiled: map<string, seq<Prefix>>)
    requires SetsCompiled(sets, compiled)
    requires ParseEach(cs, sets.Keys).Ok? && |cs| == |es|
    requires forall i :: 0 <= i < |es| ==> Reads(cs[i], es[i])
    ensures var ps := ParseEach(cs, sets.Keys).value;
            && (forall i :: 0 <= i < |es| ==> Match(ps[i], ctx, compiled) == Holds(es[i], ctx, sets))
            && ((forall p | p in ps :: Match(p, ctx, compiled)) <==> forall i :: 0 <= i < |es| ==> Holds(es[i], ctx, sets))
            && ((exists p | p in ps :: Match(p, ctx, compiled)) <==> exists i :: 0 <= i < |es| && Holds(es[i], ctx, sets))
    decreases es
  {
    ParseEachSpec(cs, sets.Keys);
    var ps := ParseEach(cs, sets.Keys).value;
    forall i | 0 <= i < |es| ensures Match(ps[i], ctx, compiled) == Holds(es[i], ctx, sets) {
      CompiledMeaning(cs[i], es[i], ctx, sets, compiled);
    }
    assert forall p :: p in ps <==> exists i :: 0 <= i < |ps| && ps[i] == p;
    assert forall i :: 0 <= i < |ps| ==> ps[i] in ps;
  }

  /** Every accepted tree has a reading, and only one. */
  lemma {:induction false} UniqueReading(c: Condition, names: set<string>) returns (e: Expr)
    requires ParseCondition(c, names).Ok?
    ensures Reads(c, e) && forall other :: Reads(c, other) ==> other == e
    decreases c, 1
  {
    if c.all != [] {
      var es := UniqueReadings(c.all, names);
      e := All(es);
    } else if c.anyOf != [] {
      var es := UniqueReadings(c.anyOf, names);
      e := AnyOf(es);
    } else if c.methodEquals != "" { e := MethodIs(c.methodEquals);
    } else if c.pathEquals != "" { e := PathIs(c.pathEquals);
    } else if c.pathStartsWith != "" { e := PathBegins(c.pathStartsWith);
    } else if c.hostEquals != "" { e := HostIs(c.hostEquals);
    } else if c.headerContains.Some? { e := HeaderHas(c.headerContains.value);
    } else if c.headerEquals.Some? { e := HeaderIs(c.headerEquals.value);
    } else if c.queryContains.Some? { e := QueryHas(c.queryContains.value);
    } else if c.ipInSet != "" { e := InSet(c.ipInSet);
    } else { e := NotInSet(c.ipNotInSet); }
  }

  lemma {:induction false} UniqueReadings(cs: seq<Condition>, names: set<string>) returns (es: seq<Expr>)
    requires ParseEach(cs, names).Ok?
    ensures |es| == |cs| && forall i :: 0 <= i < |cs| ==> Reads(cs[i], es[i])
    ensures forall other :: |other| == |cs| && (forall i :: 0 <= i < |cs| ==> Reads(cs[i], other[i])) ==> other == es
    decreases cs, 0
  {
    es := [];
    if cs != [] {
      var e := UniqueReading(cs[0], names);
      var rest := UniqueReadings(cs[1..], names);
      es := [e] + rest;
      forall other: seq<Expr> | |other| == |cs| && (forall i :: 0 <= i < |cs| ==> Reads(cs[i], other[i]))
        ensures other == es
      {
        forall i | 0 <= i < |cs| - 1 ensures Reads(cs[1..][i], other[1..][i]) {
          assert Reads(cs[i + 1], other[i + 1]);
        }
        assert other[1..] == rest;
        assert Reads(cs[0], other[0]);
        assert other == [other[0]] + other[1..];
      }
    }
  }

  // ---------------------------------------------------------------- the control plane's validator

  predicate PairFilled(nv: Option<NameValue>) {
    nv.Some? ==> TrimSpace(nv.value.name) != "" && nv.value.value != ""
  }

  /** `validatePolicyCondition`. */
  predicate ControlAccepts(c: Condition, names: set<string>) {
    && Operators(c) == 1
    && (forall child | child in c.all :: ControlAccepts(child, names))
    && (forall child | child in c.anyOf :: ControlAccepts(child, names))
    && PairFilled(c.headerContains) && PairFilled(c.headerEquals) && PairFilled(c.queryContains)
    && (c.ipInSet != "" ==> c.ipInSet in names)
    && (c.ipNotInSet != "" ==> c.ipNotInSet in names)
  }

  /** Every condition the control plane accepts, the gateway accepts. */
  lemma {:induction false} ControlAcceptsImpliesParse(c: Condition, names: set<string>)
    requires ControlAccepts(c, names)
    ensures ParseCondition(c, names).Ok?
    decreases c
  {
    forall i | 0 <= i < |c.all| ensures ParseCondition(c.all[i], names).Ok? {
      ControlAcceptsImpliesParse(c.all[i], names);
    }
    forall i | 0 <= i < |c.anyOf| ensures ParseCondition(c.anyOf[i], names).Ok? {
      ControlAcceptsImpliesParse(c.anyOf[i], names);
    }
    ParseEachSpec(c.all, names);
    ParseEachSpec(c.anyOf, names);
    assert TrimSpace("") == "";
  }
}
