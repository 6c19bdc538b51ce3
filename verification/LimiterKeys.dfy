/** The keys of the rate limiter's counters (services/gateway/internal/ratelimit/ratelimit.go). */
module LimiterKeys {

  function Digit(n: nat): char
    requires n < 10
  {
    ('0' as int + n) as char
  }

  /** A window number in decimal. */
  function Decimal(n: nat): string {
    if n < 10 then [Digit(n)] else Decimal(n / 10) + [Digit(n % 10)]
  }

  lemma {:induction false} DecimalDigits(n: nat)
    ensures Decimal(n) != "" && ':' !in Decimal(n)
  {
    if n >= 10 {
      DecimalDigits(n / 10);
    }
  }

  lemma {:induction false} DecimalInjective(a: nat, b: nat)
    requires Decimal(a) == Decimal(b)
    ensures a == b
  {
    var s := Decimal(a);
    var last := s[|s| - 1];
    DecimalDigits(a / 10);
    DecimalDigits(b / 10);
    assert last == Digit(a % 10) && last == Digit(b % 10);
    if a >= 10 && b >= 10 {
      assert s[..|s| - 1] == Decimal(a / 10) && s[..|s| - 1] == Decimal(b / 10);
      DecimalInjective(a / 10, b / 10);
    }
  }

  const PREFIX := "bedemwaf:rl:"

  /** The key text built by `Check`. */
  function Key(tenant: string, app: string, rule: string, hash: string, window: nat): string {
    PREFIX + (tenant + ":" + (app + ":" + (rule + ":" + hash + ":" + Decimal(window))))
  }

  /** Text up to the first colon is determined by the whole. */
  lemma {:induction false} FirstFieldUnique(a: string, x: string, b: string, y: string)
    requires ':' !in a && ':' !in b && a + ":" + x == b + ":" + y
    ensures a == b && x == y
  {
    var s, t := a + ":" + x, b + ":" + y;
    assert s[|a|] == ':' && t[|b|] == ':';
    assert forall i :: 0 <= i < |a| ==> s[i] == a[i];
    assert forall i :: 0 <= i < |b| ==> t[i] == b[i];
    assert |a| == |b|;
    assert a == s[..|a|] && b == t[..|b|];
    assert x == s[|a| + 1..] && y == t[|b| + 1..];
  }

  /** Text after the last colon is determined by the whole. */
  lemma {:induction false} LastFieldUnique(x: string, a: string, y: string, b: string)
    requires ':' !in a && ':' !in b && x + ":" + a == y + ":" + b
    ensures a == b && x == y
  {
    var s, t := x + ":" + a, y + ":" + b;
    assert s[|x|] == ':' && t[|y|] == ':';
    assert forall i :: 0 <= i < |a| ==> s[|x| + 1 + i] == a[i];
    assert forall i :: 0 <= i < |b| ==> t[|y| + 1 + i] == b[i];
    assert |x| == |y|;
    assert x == s[..|x|] && y == t[..|y|];
    assert a == s[|x| + 1..] && b == t[|y| + 1..];
  }

  /** Everything of a counter's identity but the digest and the window, as the key spells it. */
  function Owner(tenant: string, app: string, rule: string): string {
    tenant + ":" + (app + ":" + rule)
  }

  lemma KeyShape(tenant: string, app: string, rule: string, hash: string, window: nat)
    ensures Key(tenant, app, rule, hash, window) == PREFIX + (Owner(tenant, app, rule) + ":" + hash + ":" + Decimal(window))
  {
    assert tenant + ":" + (app + ":" + (rule + ":" + hash + ":" + Decimal(window)))
        == tenant + ":" + (app + ":" + rule) + ":" + hash + ":" + Decimal(window);
  }

  /**
   Exactly when two counters share a key: they have the same digest and window, and their
   tenant, app and rule read the same once joined with colons.
   */
  lemma KeyEqualIff(
    tenant: string, app: string, rule: string, hash: string, window: nat,
    tenant': string, app': string, rule': string, hash': string, window': nat)
    requires |hash| == |hash'|
    ensures Key(tenant, app, rule, hash, window) == Key(tenant', app', rule', hash', window')
            <==> Owner(tenant, app, rule) == Owner(tenant', app', rule') && hash == hash' && window == window'
  {
    KeyShape(tenant, app, rule, hash, window);
    KeyShape(tenant', app', rule', hash', window');
    var k, k' := Key(tenant, app, rule, hash, window), Key(tenant', app', rule', hash', window');
    var x, x' := Owner(tenant, app, rule) + ":" + hash, Owner(tenant', app', rule') + ":" + hash';
    assert k[|PREFIX|..] == x + ":" + Decimal(window) && k'[|PREFIX|..] == x' + ":" + Decimal(window');
    if k == k' {
      DecimalDigits(window);
      DecimalDigits(window');
      LastFieldUnique(x, Decimal(window), x', Decimal(window'));
      DecimalInjective(window, window');
      assert x[|x| - |hash|..] == hash && x'[|x'| - |hash'|..] == hash';
      assert x[..|x| - |hash| - 1] == Owner(tenant, app, rule) && x'[..|x'| - |hash'| - 1] == Owner(tenant', app', rule');
    }
  }

  /**
   Without a colon in tenant and app identifiers two counters share a key only if they are
   the same counter, whatever the rule identifiers contain.
   */
  lemma KeyInjective(
    tenant: string, app: string, rule: string, hash: string, window: nat,
    tenant': string, app': string, rule': string, hash': string, window': nat)
    requires ':' !in tenant && ':' !in tenant' && ':' !in app && ':' !in app' && |hash| == |hash'|
    requires Key(tenant, app, rule, hash, window) == Key(tenant', app', rule', hash', window')
    ensures tenant == tenant' && app == app' && rule == rule' && hash == hash' && window == window'
  {
    KeyEqualIff(tenant, app, rule, hash, window, tenant', app', rule', hash', window');
    FirstFieldUnique(tenant, app + ":" + rule, tenant', app' + ":" + rule');
    FirstFieldUnique(app, rule, app', rule');
  }

  /**
   Separate counters for a whole set of them: no two share a key exactly when no two
   that differ read the same once joined.
   */
  lemma KeysApartIff(owners: set<(string, string, string)>, hash: string, window: nat)
    ensures (forall a, b :: a in owners && b in owners && Key(a.0, a.1, a.2, hash, window) == Key(b.0, b.1, b.2, hash, window) ==> a == b)
            <==> (forall a, b :: a in owners && b in owners && Owner(a.0, a.1, a.2) == Owner(b.0, b.1, b.2) ==> a == b)
  {
    forall a, b | a in owners && b in owners
      ensures Key(a.0, a.1, a.2, hash, window) == Key(b.0, b.1, b.2, hash, window) <==> Owner(a.0, a.1, a.2) == Owner(b.0, b.1, b.2)
    {
      KeyEqualIff(a.0, a.1, a.2, hash, window, b.0, b.1, b.2, hash, window);
    }
  }

  /** With a colon in a tenant identifier, two tenants can share a counter. */
  lemma KeyCollision(rule: string, hash: string, window: nat)
    ensures Key("a:b", "c", rule, hash, window) == Key("a", "b:c", rule, hash, window)
  {
    assert "a:b" + ":" + ("c" + ":" + rule) == "a" + ":" + ("b:c" + ":" + rule);
    KeyEqualIff("a:b", "c", rule, hash, window, "a", "b:c", rule, hash, window);
  }
}
