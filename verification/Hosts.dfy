/**
 Host names: the gateway's normalisation and validity test
 (services/gateway/internal/policy/store.go) and the control plane's host name
 validation (services/control-api/internal/httpapi/validation.go).
 */
module Hosts {
  import opened Common
  import opened Text

  /** `net.SplitHostPort`, keeping only the host part. */
  function SplitHostPort(s: string): Result<string> {
    var i := AfterLast(s, ':');
    if i == 0 then Err  // missing port
    else if s[0] == '[' then
      var end := IndexOf(s, ']');
      if end == |s| || end + 1 != i - 1 then Err
      else if '[' in s[1..] || ']' in s[end + 1..] then Err
      else Ok(s[1..end])
    else
      var host := s[..i - 1];
      if ':' in host || '[' in s || ']' in s then Err else Ok(host)
  }

  function NormalizeHost(raw: string): string {
    var host := TrimSpace(ToLower(raw));
    if host == "" then ""
    else
      var parsed := if ':' in host then SplitHostPort(host) else Err;
      Trim(if parsed.Ok? then parsed.value else host, IsBracket)
  }

  predicate HasBadHostChar(s: string) {
    exists c | c in s :: c in " \t\r\n/@"
  }

  predicate IsLetterOrDigit(c: char) {
    'a' <= c <= 'z' || 'A' <= c <= 'Z' || '0' <= c <= '9'
  }

  predicate ValidLabel(piece: string) {
    && 1 <= |piece| <= 63
    && piece[0] != '-' && piece[|piece| - 1] != '-'
    && forall c :: c in piece ==> IsLetterOrDigit(c) || c == '-'
  }

  /** `isAddr` stands for a successful `netip.ParseAddr`. */
  predicate ValidHost(raw: string, isAddr: string -> bool) {
    var trimmed := TrimSpace(ToLower(raw));
    && trimmed != "" && !HasBadHostChar(trimmed) && !Contains(trimmed, "://")
    && var host := NormalizeHost(raw);
    && 0 < |host| <= 253 && !HasBadHostChar(host) && !Contains(host, "..")
    && (isAddr(host)
        || var body := if host[|host| - 1] == '.' then host[..|host| - 1] else host;
           forall piece :: piece in Split(body, '.') ==> ValidLabel(piece))
  }

  /** The loop of `validateDNSName` over the dot-separated labels. */
  predicate DnsLabel(piece: string) {
    && 1 <= |piece| <= 63
    && piece[0] != '-' && piece[|piece| - 1] != '-'
    && forall c :: c in piece ==> 'a' <= c <= 'z' || '0' <= c <= '9' || c == '-'
  }

  predicate ValidDnsName(host: string) {
    |host| <= 253 && forall piece :: piece in Split(host, '.') ==> DnsLabel(piece)
  }

  lemma DnsNameShape(host: string)
    requires ValidDnsName(host)
    ensures host != ""
    ensures forall k :: 0 <= k < |host| ==> 'a' <= host[k] <= 'z' || '0' <= host[k] <= '9' || host[k] == '-' || host[k] == '.'
    ensures host[0] != '.' && host[|host| - 1] != '.' && !Contains(host, "..")
  {
    assert !DnsLabel("") && Split("", '.') == [""];
    forall k | 0 <= k < |host| && host[k] != '.'
      ensures 'a' <= host[k] <= 'z' || '0' <= host[k] <= '9' || host[k] == '-'
    {
      SplitCovers(host, '.', k);
    }
    SplitNonEmpty(host, '.');
    forall i: nat | i + 2 <= |host| ensures !OccursAt(host, "..", i) {
      assert ".."[0] == '.' && ".."[1] == '.';
    }
  }

  lemma DnsNameIsNormal(host: string)
    requires ValidDnsName(host)
    ensures NormalizeHost(host) == host && TrimSpace(ToLower(host)) == host && !HasBadHostChar(host) && ':' !in host
  {
    DnsNameShape(host);
    assert ToLower(host) == host;
    assert forall c :: c in host ==> !IsSpace(c) && !IsBracket(c) && c != ':' && c !in " \t\r\n/@";
    assert TrimSpace(host) == host;
  }

  /**
   Every name the control plane accepts means the same thing to the gateway: it is a
   fixed point of the gateway's normalisation and passes the gateway's host check.
   */
  lemma DnsNameIsCanonicalHost(host: string, isAddr: string -> bool)
    requires ValidDnsName(host)
    ensures NormalizeHost(host) == host
    ensures ValidHost(host, isAddr)
  {
    DnsNameShape(host);
    DnsNameIsNormal(host);
    assert "://"[0] == ':' && !Contains(host, "://");
    assert forall piece :: piece in Split(host, '.') ==> ValidLabel(piece) by {
      forall piece | piece in Split(host, '.') ensures ValidLabel(piece) {
        assert DnsLabel(piece);
      }
    }
  }

  /** A name in any case and between any white space, with or without a port, is one host to the gateway. */
  lemma HostSpellings(raw: string, name: string, port: string, before: string, after: string)
    requires ValidDnsName(name) && EqualFold(raw, name) && forall c :: c in port ==> '0' <= c <= '9'
    requires (forall c :: c in before ==> IsSpace(c)) && (forall c :: c in after ==> IsSpace(c))
    ensures NormalizeHost(before + raw + after) == name
    ensures NormalizeHost(before + (raw + ":" + port) + after) == name
  {
    LowerOfSpelling(raw, name, port);
    BareHost(name);
    SpelledHost(before, raw, after);
    HostWithPort(name, port);
    SpelledHost(before, raw + ":" + port, after);
  }

  lemma LowerOfSpelling(raw: string, name: string, port: string)
    requires ValidDnsName(name) && EqualFold(raw, name) && forall c :: c in port ==> '0' <= c <= '9'
    ensures ToLower(raw) == name && ToLower(raw + ":" + port) == name + ":" + port
  {
    DnsNameShape(name);
    LowerEqualIff(raw, name);
    LowerForm(name);
    assert ToLower(raw) == name;
    assert forall i :: 0 <= i < |port| ==> port[i] in port && LowerChar(port[i]) == port[i];
  }

  lemma SpelledHost(before: string, raw: string, after: string)
    requires (forall c :: c in before ==> IsSpace(c)) && (forall c :: c in after ==> IsSpace(c))
    requires raw != "" && !IsSpace(ToLower(raw)[0]) && !IsSpace(ToLower(raw)[|raw| - 1])
    ensures NormalizeHost(before + raw + after) == Inside(ToLower(raw))
  {
    SpellingTrims(before, raw, after);
    NormalizeSteps(before + raw + after);
    InsideSteps(ToLower(raw));
  }

  lemma SpellingTrims(before: string, s: string, after: string)
    requires (forall c :: c in before ==> IsSpace(c)) && (forall c :: c in after ==> IsSpace(c))
    requires s != "" && !IsSpace(ToLower(s)[0]) && !IsSpace(ToLower(s)[|s| - 1])
    ensures TrimSpace(ToLower(before + s + after)) == ToLower(s)
  {
    LowerSpaces(before);
    LowerSpaces(after);
    assert ToLower(before + s + after) == before + ToLower(s) + after;
    TrimAround(before, ToLower(s), after, IsSpace);
  }

  lemma LowerSpaces(s: string)
    requires forall c :: c in s ==> IsSpace(c)
    ensures forall i :: 0 <= i < |s| ==> LowerChar(s[i]) == s[i]
  {
    forall i | 0 <= i < |s| ensures LowerChar(s[i]) == s[i] {
      assert s[i] in s;
    }
  }

  lemma BareHost(name: string)
    requires ValidDnsName(name)
    ensures name != "" && Inside(name) == name && PlainName(name) && !IsSpace(name[0]) && !IsSpace(name[|name| - 1])
  {
    DnsNameShape(name);
    assert forall c :: c in name ==> !IsSpace(c) && !IsBracket(c) && c != ':';
    NoBracketTrim(name);
  }

  lemma HostWithPort(name: string, port: string)
    requires ValidDnsName(name) && forall c :: c in port ==> '0' <= c <= '9'
    ensures var h := name + ":" + port; Inside(h) == name && !IsSpace(h[0]) && !IsSpace(h[|h| - 1])
  {
    BareHost(name);
    PortAfterName(name, port);
    assert port != "" ==> port[|port| - 1] in port;
  }

  lemma PortAfterName(name: string, port: string)
    requires PlainName(name) && PlainName(port)
    ensures Inside(name + ":" + port) == name
  {
    var h := name + ":" + port;
    assert forall k :: 0 <= k < |name| ==> h[k] == name[k] && h[k] in name;
    assert h[|name|] == ':';
    assert IndexOf(h, ':') == |name|;
    assert h[|name| + 1..] == port && h[..|name|] == name;
    assert forall c :: c in h ==> c in name || c == ':' || c in port;
  }

  predicate PlainName(s: string) {
    '[' !in s && ']' !in s && ':' !in s
  }

  ghost predicate PlainText(s: string) {
    forall c :: c in s ==> !IsSpace(c) && !IsBracket(c)
  }

  lemma SplitHostPortPlain(s: string)
    requires PlainText(s)
    ensures SplitHostPort(s).Ok? ==>
              var r := SplitHostPort(s).value; ':' !in r && PlainText(r) && r <= s
  {
    assert s != "" ==> s[0] in s;
  }

  function StripPort(host: string): string {
    if ':' in host && SplitHostPort(host).Ok? then SplitHostPort(host).value else host
  }

  lemma NormalizePlain(host: string)
    requires PlainText(host) && ToLower(host) == host
    ensures NormalizeHost(host) == StripPort(host)
  {
    assert host != "" ==> host[0] in host && host[|host| - 1] in host;
    var r := StripPort(host);
    assert r != "" ==> r[0] in host && r[|r| - 1] in host;
  }

  lemma LowerPlain(raw: string)
    requires PlainText(raw)
    ensures PlainText(ToLower(raw)) && ToLower(ToLower(raw)) == ToLower(raw)
    ensures NormalizeHost(ToLower(raw)) == NormalizeHost(raw)
  {
    var host := ToLower(raw);
    forall c | c in host ensures !IsSpace(c) && !IsBracket(c) {
      var i :| 0 <= i < |host| && host[i] == c;
      assert raw[i] in raw;
    }
    assert ToLower(host) == host;
  }

  /** Normalising twice is normalising once on text without brackets and white space. */
  lemma NormalizeHostIdempotent(raw: string)
    requires PlainText(raw)
    ensures NormalizeHost(NormalizeHost(raw)) == NormalizeHost(raw)
  {
    var host := ToLower(raw);
    LowerPlain(raw);
    NormalizePlain(host);
    SplitHostPortPlain(host);
    var r := StripPort(host);
    forall i | 0 <= i < |r| ensures LowerChar(r[i]) == r[i] {
      assert r[i] == host[i];
      assert ToLower(host)[i] == host[i];
    }
    assert ToLower(r) == r;
    NormalizePlain(r);
  }

  /** Text without capital letters. */
  ghost predicate Lower(s: string) {
    forall i :: 0 <= i < |s| ==> LowerChar(s[i]) == s[i]
  }

  lemma {:induction false} TrimKeeps(s: string, cut: char -> bool)
    ensures |Trim(s, cut)| <= |s| && (Lower(s) ==> Lower(Trim(s, cut)))
    ensures Trim(s, cut) != s ==> |Trim(s, cut)| < |s|
  {
    if s != "" && cut(s[0]) {
      TrimKeeps(s[1..], cut);
    } else if s != "" && cut(s[|s| - 1]) {
      TrimKeeps(s[..|s| - 1], cut);
    }
  }

  lemma StripKeeps(s: string)
    ensures |StripPort(s)| <= |s| && (Lower(s) ==> Lower(StripPort(s)))
    ensures ':' in s && SplitHostPort(s).Ok? ==> |StripPort(s)| < |s|
  {
  }

  lemma NormalizeSteps(raw: string)
    ensures NormalizeHost(raw) == Trim(StripPort(TrimSpace(ToLower(raw))), IsBracket)
  {
  }

  lemma NormalFormIsLower(raw: string)
    ensures Lower(NormalizeHost(raw)) && Trim(NormalizeHost(raw), IsBracket) == NormalizeHost(raw)
  {
    var host := TrimSpace(ToLower(raw));
    NormalizeSteps(raw);
    TrimKeeps(ToLower(raw), IsSpace);
    StripKeeps(host);
    TrimKeeps(StripPort(host), IsBracket);
    TrimIdempotent(StripPort(host), IsBracket);
  }

  lemma NormalFormSettles(raw: string)
    ensures var r := NormalizeHost(raw);
            NormalizeHost(r) == r <==> TrimSpace(r) == r && (':' in r ==> SplitHostPort(r).Err?)
  {
    var r := NormalizeHost(raw);
    NormalFormIsLower(raw);
    assert ToLower(r) == r;
    NormalizeSteps(r);
    var t := TrimSpace(r);
    TrimKeeps(r, IsSpace);
    StripKeeps(t);
    TrimKeeps(StripPort(t), IsBracket);
  }

  /** Text of the form host, colon, port: one colon and no bracket. */
  predicate HostPort(h: string) {
    var i := IndexOf(h, ':');
    i < |h| && ':' !in h[i + 1..] && '[' !in h && ']' !in h
  }

  /** Text of the form bracketed host, colon, port. */
  predicate BracketedPort(h: string) {
    && h != "" && h[0] == '['
    && var end := IndexOf(h, ']');
       end + 1 < |h| && h[end + 1] == ':' && ':' !in h[end + 2..] && '[' !in h[1..] && ']' !in h[end + 1..]
  }

  /** The text inside the outer brackets of `h`, or before its port. */
  function Inside(h: string): string {
    if BracketedPort(h) then h[1..IndexOf(h, ']')]
    else if HostPort(h) then h[..IndexOf(h, ':')]
    else Trim(h, IsBracket)
  }

  predicate OuterSpace(s: string) {
    s != "" && (IsSpace(s[0]) || IsSpace(s[|s| - 1]))
  }

  /**
   The guard, on the text to be normalised, by its shape: a bracketed host with a port, a
   plain host with a port, where only white space before the colon matters, or no port.
   Unwrapped, it must have no outer white space and not read as host and port again.
   */
  predicate WrappedOnce(raw: string) {
    var h := TrimSpace(ToLower(raw));
    if BracketedPort(h) then
      var host := h[1..IndexOf(h, ']')];
      !OuterSpace(host) && !HostPort(host)
    else if HostPort(h) then
      var colon := IndexOf(h, ':');
      colon == 0 || !IsSpace(h[colon - 1])
    else
      var host := Trim(h, IsBracket);
      !OuterSpace(host) && !HostPort(host)
  }

  lemma WrappedOnceInside(raw: string)
    ensures var inside := Inside(TrimSpace(ToLower(raw))); WrappedOnce(raw) <==> !OuterSpace(inside) && !HostPort(inside)
  {
    var h := TrimSpace(ToLower(raw));
    if !BracketedPort(h) && HostPort(h) {
      var colon := IndexOf(h, ':');
      var host := h[..colon];
      assert !IsSpace(h[0]);
      assert ':' !in host;
      assert forall k :: 0 <= k < |host| ==> host[k] != ':';
    }
  }

  lemma LastColon(h: string, k: nat)
    requires k < |h| && h[k] == ':' && ':' !in h[k + 1..]
    ensures AfterLast(h, ':') == k + 1
  {
    assert forall j :: k < j < |h| ==> h[j] == h[k + 1..][j - k - 1] && h[k + 1..][j - k - 1] in h[k + 1..];
  }

  lemma BracketedSplit(h: string)
    requires h != "" && h[0] == '['
    ensures SplitHostPort(h) == if BracketedPort(h) then Ok(h[1..IndexOf(h, ']')]) else Err
  {
    var i, end := AfterLast(h, ':'), IndexOf(h, ']');
    if end + 1 < |h| && h[end + 1] == ':' && ':' !in h[end + 2..] {
      LastColon(h, end + 1);
    }
  }

  lemma PlainSplit(h: string)
    requires h == "" || h[0] != '['
    ensures SplitHostPort(h) == if HostPort(h) then Ok(h[..IndexOf(h, ':')]) else Err
  {
    var i, first := AfterLast(h, ':'), IndexOf(h, ':');
    if first < |h| && ':' !in h[first + 1..] {
      LastColon(h, first);
    } else if first < |h| {
      assert i > first + 1;
      assert h[first] in h[..i - 1];
    }
  }

  lemma {:induction false} NoBracketTrim(s: string)
    requires '[' !in s && ']' !in s
    ensures Trim(s, IsBracket) == s
  {
    assert s != "" ==> s[0] in s && s[|s| - 1] in s;
  }

  lemma InsideSteps(h: string)
    ensures Trim(StripPort(h), IsBracket) == Inside(h)
  {
    if h != "" && h[0] == '[' {
      BracketedSplit(h);
      assert '[' in h;
      if BracketedPort(h) {
        var end := IndexOf(h, ']');
        assert h[end + 1] in h;
        assert forall c :: c in h[1..end] ==> c in h[1..];
        NoBracketTrim(h[1..end]);
      }
    } else {
      PlainSplit(h);
      if HostPort(h) {
        assert h[IndexOf(h, ':')] in h;
        NoBracketTrim(h[..IndexOf(h, ':')]);
      }
    }
  }

  lemma TrimSpaceIff(s: string)
    ensures TrimSpace(s) == s <==> !OuterSpace(s)
  {
    TrimKeeps(s, IsSpace);
  }

  /** Exactly when it is idempotent, in terms of the text to be normalised. */
  lemma NormalizeHostIdempotentIff(raw: string)
    ensures NormalizeHost(NormalizeHost(raw)) == NormalizeHost(raw) <==> WrappedOnce(raw)
  {
    var r := NormalizeHost(raw);
    NormalizeSteps(raw);
    InsideSteps(TrimSpace(ToLower(raw)));
    NormalFormSettles(raw);
    NormalFormIsLower(raw);
    PlainSplit(r);
    TrimSpaceIff(r);
    WrappedOnceInside(raw);
    assert HostPort(r) ==> r[IndexOf(r, ':')] in r;
  }

  /** It is not idempotent in general: an address that carries a port inside brackets unwraps twice, with or without one outside. */
  lemma NormalizeHostNotIdempotent()
    ensures NormalizeHost("[a:1]:80") == "a:1" && NormalizeHost("[a:1]") == "a:1"
    ensures NormalizeHost("a:1") == "a"
  {
    UnwrapsOnce("[a:1]:80");
    PlainEnds("[a:1]:80");
    NormalizeSteps("[a:1]:80");
    UnwrapsBare("[a:1]");
    UnwrapsAgain();
  }

  lemma UnwrapsBare(s: string)
    requires s == "[a:1]"
    ensures NormalizeHost(s) == "a:1"
  {
    assert ToLower(s) == s && TrimSpace(s) == s;
    BracketedSplit(s);
    assert s[4] == ']' && IndexOf(s, ']') == 4;
    assert s[1..] == "a:1]" && Trim(s[1..], IsBracket) == "a:1" by {
      assert s[1..][..3] == "a:1";
    }
  }

  lemma PlainEnds(s: string)
    requires s == "[a:1]:80"
    ensures TrimSpace(ToLower(s)) == s && Trim("a:1", IsBracket) == "a:1"
  {
    assert ToLower(s) == s;
  }

  lemma UnwrapsOnce(s: string)
    requires s == "[a:1]:80"
    ensures StripPort(s) == "a:1"
  {
    assert s[5] == ':' && AfterLast(s, ':') == 6;
    assert s[4] == ']' && IndexOf(s, ']') == 4;
    assert s[1..] == "a:1]:80" && s[5..] == ":80" && s[1..4] == "a:1";
    assert SplitHostPort(s) == Ok("a:1");
  }

  lemma UnwrapsAgain()
    ensures NormalizeHost("a:1") == "a"
  {
    var r := "a:1";
    assert ToLower(r) == r && TrimSpace(r) == r;
    assert r[1] == ':' && AfterLast(r, ':') == 2;
    assert r[..1] == "a";
    assert SplitHostPort(r) == Ok("a");
  }
}
