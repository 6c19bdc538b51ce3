# BedemWAF: a verified model

BedemWAF is a web application firewall gateway with a control plane. This project models the parts of it
whose correctness spans several functions or a whole run, and proves what they promise:

- the gateway's **remote policy cache**, as the interleaving of any number of concurrent lookups
  (`PolicyCache.dfy`), and the provider object itself (`PolicyProvider.dfy`);
- the **fixed-window rate limiter**: its counter stores, the Redis script against the in-memory map
  (`CounterStores.dfy`), its keys (`LimiterKeys.dfy`), its checks (`RateLimiter.dfy`);
- the **draft and publish transactions** of the control plane, as the interleaving of any number of
  transactions with row locks and time stamps (`PolicyLifecycle.dfy`), joined to validation, compilation and the
  gateway's reading and enforcing of a published policy (`Publishing.dfy`);
- the **policy language**: conditions, their two validations and their meaning (`Conditions.dfy`), custom rules,
  rate limits, apps and the host index (`Policy.dfy`, `HostIndex.dfy`, `Hosts.dfy`, `Addresses.dfy`), and the control
  plane's checks of the same data (`ControlPlane.dfy`);
- the **decision pipeline** (`Gateway.dfy`, `RequestBody.dfy`, `Decisions.dfy`), alone and behind the policy lookup
  (`Serving.dfy`), and what it lets through over a whole run of concurrent requests (`GatewayRuns.dfy`, `LateIncrements.dfy`
  for how far that goes, and `LimitsInForce.dfy` in terms of the configuration and of a published draft);
- the **audit dispatcher**, as the interleaving of concurrent `Log` calls, a worker and a shutdown
  (`AuditDispatcher.dfy`), and the **simulation summary** (`SimulationSummary.dfy`).

`Common.dfy`, `Text.dfy` and `Sorting.dfy` hold what the others share. Concurrent parts are state machines: `Enabled`
and `Apply` give one atomic step, `IsRun` and `After` a run of them from a state, and a theorem about every run is about
every interleaving. What the outside world decides (clock readings, answers to fetches, failures of the store, answers
of sinks and of the WAF) is a parameter of a step or of a method.

Where a natural property does not hold of the code, the code is kept, a lemma gives the input that breaks the property,
and another says exactly when it holds: `NormalizeHostNotIdempotent` with `NormalizeHostIdempotentIff`,
`LateCallStartsOver` with `RedisRefinesMemory`, `GatewayRefusesDuplicateIds` with `GatewayAcceptsValidated`,
`KeyCollision` with `KeyEqualIff`. The limit of a rate limit rule is one of these: over Redis it bounds what reaches the
origin per life of a counter, and a counter has one life exactly when its increments are prompt
(`LateIncrementExceedsLimit`, `AtMostLimitPerLife`, `PromptIffOneLife`); that bound is exact (`BoundIsAttained`).

## Model

| member | source | states |
|---|---|---|
| `PolicyCache.NewConfig` | services/gateway/internal/policyclient/client.go:118-140 | whatever the configured seconds, also when the 64-bit product wraps around, the TTL is positive; it is the configured one if that fits and 30 seconds for none; the provider fails closed iff the behaviour is `fail_closed` |
| `PolicyCache.OneFetchPerHost` | services/gateway/internal/policyclient/client.go:157-167 | in every reachable state two lookups of one host are never both past the lock, so at most one fetch per host is in flight |
| `PolicyCache.FetchRate` | services/gateway/internal/policyclient/client.go:161-171 | successful fetches of one host whose re-check times span T number at most T / TTL + 1 |
| `PolicyCache.LocksAreForever` | services/gateway/internal/policyclient/client.go:201-216 | along any run the mutex created for a host stays its mutex, and a cached host stays cached |
| `PolicyCache.OnlyHolderWrites` | services/gateway/internal/policyclient/client.go:157-171 | a step that changes a host's cache entry is taken by the lookup holding that host's mutex |
| `PolicyCache.ServedResults` | services/gateway/internal/policyclient/client.go:142-188 | a fresh answer was fetched for that host less than one TTL before, measured from before its fetch; a stale one is given only if this lookup's own fetch failed and its entry had expired at the re-check; without a policy a provider that fails closed answers 503 `policy_fetch_failed` and any other lets the request go; an empty host gets neither |
| `PolicyCache.StoredHostsAlwaysFound` | services/gateway/internal/policyclient/client.go:169-188 | once a host has been stored, no lookup of it that begins later ends without an app, under any fail behaviour |
| `PolicyCache.NoDeadlock` | services/gateway/internal/policyclient/client.go:157-159 | while a lookup is unfinished, some lookup of its host can take a step |
| `PolicyCache.CountersAreExact` | services/gateway/internal/policyclient/client.go:148-174 | hits, misses and errors equal the numbers of lookups that hit, missed and failed to fetch |
| `PolicyProvider.Provider.HostLock` | services/gateway/internal/policyclient/client.go:207-216 | get-or-create of a host's mutex: an existing one is returned and nothing changes, a new one differs from every mutex made before |
| `PolicyProvider.Provider.Lookup` | services/gateway/internal/policyclient/client.go:142-188 | an undisturbed call is a run of the interleaving model, and reads off the entry, the two clock readings and the fetch: a usable entry is served, a fetched policy is served and kept for one TTL, an old entry stands in for a failed fetch, and without one fail-closed gives 503 and fail-open lets go |
| `PolicyProvider.LockedRun` | services/gateway/internal/policyclient/client.go:157-188 | the part under the mutex, as one outcome of the cache, the clock and the fetch, is a run of the model that releases the mutex |
| `CounterStores.MemoryStore.IncrementFixedWindow` | services/gateway/internal/ratelimit/ratelimit.go:262-271 | the key's counter goes up by one and no other changes; the answer is the new count and what is left of the limit, not below zero |
| `CounterStores.RedisServer.FixedWindow` | services/gateway/internal/ratelimit/ratelimit.go:24-35 | INCR and EXPIRE as the script issues them take one step of the cells, an expired key starting over with a new lifetime |
| `CounterStores.CounterStore.IncrementFixedWindow` | services/gateway/internal/ratelimit/ratelimit.go:50-52 | behind the store interface either implementation takes its own step and answers with its own count |
| `CounterStores.OneLifeIff` | services/gateway/internal/ratelimit/ratelimit.go:24-35 | Redis makes a key once, over any run, if and only if each call on it comes within the lifetime the first one set |
| `CounterStores.OneMoreCall` | services/gateway/internal/ratelimit/ratelimit.go:24-35 | a call continues the life of its key or begins the next at one, and touches no other key, in either store |
| `CounterStores.MemoryCounts` | services/gateway/internal/ratelimit/ratelimit.go:262-271 | after any run a key's counter is the number of calls on it, and the k-th call is told count k and max(0, limit - k) |
| `CounterStores.RedisRefinesMemory` | services/gateway/internal/ratelimit/ratelimit.go:24-35 | Redis answers every call of a run as the in-memory store does if and only if each call comes within the lifetime the first call on its key set |
| `CounterStores.LateCallStartsOver` | services/gateway/internal/ratelimit/ratelimit.go:24-35 | a run on which the two stores differ |
| `CounterStores.WindowIndexExact` | services/gateway/internal/ratelimit/ratelimit.go:97-98 | a clock reading lies in the window computed from it and in no other |
| `CounterStores.InWindowRunsAgree` | services/gateway/internal/ratelimit/ratelimit.go:95-102 | if every increment lands inside its own window, the Redis store answers exactly as the in-memory store |
| `CounterStores.LiveKeysAreRecent` | services/gateway/internal/ratelimit/ratelimit.go:24-35 | on such runs a live Redis key belongs to the current window of its rule or the one before |
| `RateLimiter.LimiterRunsAgree` | services/gateway/internal/ratelimit/ratelimit.go:95-102 | the same for everything the rules of all apps send, with keys as the limiter builds them and any identifiers: executed in the window it was counted for, every increment gets the in-memory answer from Redis, if rules whose joined identifiers read the same have one window length |
| `LimiterKeys.KeyEqualIff` | services/gateway/internal/ratelimit/ratelimit.go:97-100 | with digests of one length two counters share a key if and only if digest and window are equal and tenant, app and rule read the same joined with colons, whatever they contain |
| `LimiterKeys.KeysApartIff` | services/gateway/internal/ratelimit/ratelimit.go:97-100 | over any set of (tenant, app, rule), counters are separate exactly when no two that differ read the same once joined |
| `LimiterKeys.KeyInjective` | services/gateway/internal/ratelimit/ratelimit.go:97-100 | hence without colons in tenant and app equal keys mean equal counters, whatever the rule identifier contains |
| `LimiterKeys.KeyCollision` | services/gateway/internal/ratelimit/ratelimit.go:97-100 | with a colon in a tenant identifier two tenants share a counter |
| `RateLimiter.ResetAtAhead` | services/gateway/internal/ratelimit/ratelimit.go:97-99 | the reset time lies after the clock reading, by at most one window |
| `RateLimiter.ResetAtEndsWindow` | services/gateway/internal/ratelimit/ratelimit.go:97-99 | the reset time is the end of the window: a later reading falls in the same window iff it comes before it |
| `RateLimiter.SharedCounterIff` | services/gateway/internal/ratelimit/ratelimit.go:153-166 | unless digests collide, two requests fall on one counter of a rule iff they are read in one window and agree in what keys the rule: the client address, the host but for case, the path, or the first value of the header |
| `RateLimiter.AcceptedLimitCounts` | services/gateway/internal/ratelimit/ratelimit.go:79-102 | a limit of an accepted app counts a request iff the configured rule is enabled and has no condition or one that holds as configured; it has the configured limit, window, key, action and status |
| `RateLimiter.FixedWindowLimiter.Check` | services/gateway/internal/ratelimit/ratelimit.go:79-128 | over either store: only a counted request touches it, on its own counter; the decision follows count, limit, and on a lost request or reply the failure mode, with the rule's own action and status, what is left of its limit, and the end of the window |
| `RequestBody.HttpRequest.PrepareBody` | services/gateway/internal/proxy/gateway.go:299-330 | below the 64-bit maximum the body forwarded later has the original bytes; the preview is the first min(limit, length) bytes; exceeded iff length > limit > 0; at the maximum the wrapped limit previews nothing; it fails iff a body that fits cannot be read to its end or closed |
| `Gateway.EvaluateRateLimits` | services/gateway/internal/proxy/gateway.go:332-347 | the loop returns the decision, and leaves the counters, of asking the rules one by one until the first that does not allow |
| `Gateway.FirstStopDecides` | services/gateway/internal/proxy/gateway.go:332-347 | the loop read declaratively: the first rule that does not allow, asked in the store the earlier ones leave, decides; if there is none the stage allows |
| `Gateway.FirstTrippedDecides` | services/gateway/internal/proxy/gateway.go:332-347 | the first rule over its limit decides with its own action and no counter behind it moves: a count rule hides later block rules |
| `Gateway.NoneTrippedAllows` | services/gateway/internal/proxy/gateway.go:332-347 | if no rule is over its limit in the state it meets, the stage allows |
| `Gateway.AcceptedLimitRaises` | services/gateway/internal/ratelimit/ratelimit.go:79-128 | in an accepted app, if the store does not lose the increment, asking a limit changes the store iff the configured rule is for the request, and then moves that request's counter to the count it answers and no other |
| `Gateway.FinalByStages` | services/gateway/internal/proxy/gateway.go:178-242 | the first would-block candidate, else the first count, else allow, spelled out stage by stage in the order IP, rate limit, body limit, custom, WAF, default |
| `Gateway.Decide` | services/gateway/internal/proxy/gateway.go:178-242 | the staged code with its rewritten variables computes that decision; it fails exactly if the WAF is reached and errs; the counters move only if the IP stage lets the request on |
| `Gateway.Enforce` | services/gateway/internal/proxy/gateway.go:244-274 | denied iff the mode is block and the decision would block; the audit event says exactly that and carries the decision |
| `Gateway.DeniedBy` | services/gateway/internal/proxy/gateway.go:178-296 | in block mode the first stage that stops a request gives its status and the reason in the audit event: 403 for the IP lists, the body limit and the default, the rule's own or 403 for the rest, 400 if the WAF errs; nothing else keeps it from the origin |
| `Gateway.ServeRouted` | services/gateway/internal/proxy/gateway.go:159-296 | for every request whose app was found: 400 on an unreadable body or a WAF error in either mode, else the outcome of the final decision; a forwarded body is the original one |
| `Gateway.ServeHttp` | services/gateway/internal/proxy/gateway.go:87-296 | health and metrics pages, bad hosts, fail-open (nothing written), not found with its status, and otherwise the routed outcome, judged on the request's own verb, path, headers, query and address and its normalised host; only routed requests reach the origin or move counters, and the counters move as the rate limit stage says |
| `Serving.Serve` | services/gateway/internal/proxy/gateway.go:87-296 | a request with the lookup it makes: judged by the usable entry, else the fetched policy, else the old entry of its host; with none of them answered 503 by a gateway that fails closed and let go by any other, and no counter moves |
| `Serving.AcceptedWindowsPositive` | services/gateway/internal/policy/store.go:421-482 | the limits of an accepted app have positive windows, which is what serving asks of the apps handed out |
| `GatewayRuns.UndisturbedAsks` | services/gateway/internal/proxy/gateway.go:332-347 | a request that asks its rules undisturbed ends with the decision and the store of the loop over them: the runs refine the method |
| `GatewayRuns.ServedIsForwarded` | services/gateway/internal/proxy/gateway.go:178-274 | any outcome of the pipeline is reached by the request's own steps in the runs; it is answered by the origin exactly if the runs call it forwarded, but for a failed body or WAF |
| `GatewayRuns.ForwardedWasAdmitted` | services/gateway/internal/proxy/gateway.go:186-193 | in every reachable state in block mode a forwarded request that the rule counts was admitted by it, on the counter of its own clock reading |
| `GatewayRuns.AtMostLimitPerLife` | services/gateway/internal/ratelimit/ratelimit.go:24-35 | in any interleaving with any foreign increments, over Redis or memory, in block mode, with a store that never fails or fails closed: a block rule with no enabled count rule before it lets at most lives * limit matching requests per key and window reach the origin, where lives is how often the store made the key |
| `GatewayRuns.PromptIffOneLife` | services/gateway/internal/ratelimit/ratelimit.go:24-35 | a window's counter is made at most once if and only if Redis executes every increment on it within the lifetime set by the first |
| `GatewayRuns.OwnWindowIsPrompt` | services/gateway/internal/ratelimit/ratelimit.go:95-102 | for that it is enough that each increment executes in the window it was counted for |
| `GatewayRuns.AtMostLimitPerWindow` | services/gateway/internal/proxy/gateway.go:186-274 | with prompt increments at most the limit of those requests per key and window reach the origin |
| `GatewayRuns.AtMostLivesPerSpan` | services/gateway/internal/ratelimit/ratelimit.go:79-128 | in any span of T seconds at most (ceil(T / W) + 1) * lives * limit of them, if no counter is made more than lives times |
| `GatewayRuns.AtMostLimitPerSpan` | services/gateway/internal/ratelimit/ratelimit.go:79-128 | with prompt increments at most (ceil(T / W) + 1) * limit |
| `LimitsInForce.ConfiguredLimitHolds` | services/gateway/internal/ratelimit/ratelimit.go:79-128 | the bounds in terms of the configuration: of the requests a block limit is for, as configured, at most lives * the configured limit per key and window reach the origin in any run, and at most the limit with prompt increments, unless an enabled count limit of lower (priority, position) hides it |
| `LimitsInForce.PublishedLimitHolds` | services/gateway/internal/policyclient/client.go:239-284 | the same for a limit of a published draft that asks for block mode, enforced by the gateway that runs it |
| `LateIncrements.BoundIsAttained` | services/gateway/internal/ratelimit/ratelimit.go:24-35 | the bound by lives is exact: for every limit, window and number of lives some run over Redis lets lives * limit requests of one key and window through |
| `LateIncrements.LateIncrementExceedsLimit` | services/gateway/internal/ratelimit/ratelimit.go:24-35 | promptness is needed: of two requests in one window with limit one, executed at any two instants, both reach the origin if and only if the second executes after the key has expired |
| `LateIncrements.LateByTwoMilliseconds` | services/gateway/internal/ratelimit/ratelimit.go:24-35 | a run over Redis with a window of one second that breaks the limit |
| `Hosts.DnsNameIsCanonicalHost` | services/control-api/internal/httpapi/validation.go:57-77 | every name the control plane accepts is a fixed point of the gateway's normalisation and passes its host check |
| `Hosts.NormalizeHostIdempotent` | services/gateway/internal/policy/store.go:196-207 | normalising twice is normalising once on text without brackets and white space |
| `Hosts.NormalizeHostNotIdempotent` | services/gateway/internal/policy/store.go:196-207 | `[a:1]:80` and `[a:1]` unwrap to `a:1`, which unwraps again to `a` |
| `Hosts.NormalizeHostIdempotentIff` | services/gateway/internal/policy/store.go:196-207 | for every text, judged by its shape: a second normalisation changes nothing iff a bracketed host (with or without a port) has no white space inside its brackets' ends and is not itself host, colon, port, and a plain host with a port has no white space before the colon |
| `Hosts.HostSpellings` | services/gateway/internal/policy/store.go:196-207 | a DNS name in any case, between any white space, with or without a port is that name to the gateway |
| `Policy.IpVerdict` | services/gateway/internal/policy/store.go:242-257 | an accepted app refuses, with 403 and the list as reason, exactly the addresses in a configured block prefix, and those outside an allow list that is not empty |
| `HostIndex.IndexAnswersAsScan` | services/gateway/internal/policy/store.go:111-127 | the map the loops build answers, for a host as it is given, as a linear scan over all (app, normalised host name) pairs |
| `HostIndex.IndexFacts` | services/gateway/internal/policy/store.go:111-127 | in an index no host is listed twice, and map and list hold the same pairs |
| `HostIndex.BuildIndex` | services/gateway/internal/policy/store.go:111-127 | the loops succeed iff every app compiles and no normalised host repeats, and then index all pairs |
| `HostIndex.AllDistinct` | services/control-api/internal/httpapi/validation.go:23-55 | the loop with the seen map accepts iff every value passes the check and no two have the same result |
| `Policy.NewStore` | services/gateway/internal/policy/store.go:111-127 | the store is built iff all apps are acceptable and hosts distinct, and then `MatchHost` of any text is the answer of the scan at its normal form |
| `Policy.NewApp` | services/gateway/internal/policy/store.go:133-181 | an app configuration is accepted iff it meets every check, and becomes its compiled form, which keeps its identifiers, host names, origin, mode and default action |
| `Policy.ParseCustomRules` | services/gateway/internal/policy/store.go:377-419 | accepted iff every rule is acceptable and identifiers are distinct; the result is the compiled rules, stably sorted by priority |
| `Policy.ParseRateLimitRules` | services/gateway/internal/policy/store.go:421-482 | the same for rate limits |
| `Policy.LimitsInOrder` | services/gateway/internal/policy/store.go:421-482 | the limits of an accepted app are the configured ones, each once with its own figures, in ascending order of priority number and of position among equals |
| `Policy.ParseIpSets` | services/gateway/internal/policy/store.go:362-375 | accepted iff every name is not blank and every entry parses; the result is the masked sets |
| `Policy.EvaluateCustomRules` | services/gateway/internal/policy/store.go:259-296 | the loop with its remembered first count yields the first decisive match, else the first count match, else allow |
| `Policy.CustomRulesByPriority` | services/gateway/internal/policy/store.go:259-296 | after the sort that is the applicable block or terminal-allow rule with the smallest priority number, the earliest of several, else the least such count rule, else allow |
| `Policy.CustomRulesOrderIrrelevant` | services/gateway/internal/policy/store.go:377-419 | with distinct priorities, permuting the configuration changes neither its acceptance nor the compiled rules |
| `Sorting.StableSortSorts` | services/gateway/internal/policy/store.go:415-417 | the stable sort orders its input and keeps its elements |
| `Sorting.StableOrder` | services/gateway/internal/policy/store.go:415-417 | the stable sort is the permutation of the input positions that orders them by (key, position) |
| `Sorting.FirstMatchAfterSort` | services/gateway/internal/policy/store.go:415-417 | the first match after the sort is the match of the input least by (key, position) |
| `Addresses.MaskedKeepsMembers` | services/gateway/internal/policy/store.go:350-360 | an address is in the masked prefix iff it is of the prefix's family, has no zone and agrees with each bit of the prefix as configured |
| `Conditions.CanonicalHeaderNameIdempotent` | services/gateway/internal/policy/store.go:606-608 | canonicalising a header name twice is doing it once (section 5.1 of RFC 9110) |
| `Conditions.CanonicalHeaderForm` | services/gateway/internal/policy/store.go:606-608 | the canonical name of a token has capitals at the start and after hyphens, small letters elsewhere, and otherwise the same characters |
| `Conditions.SameHeaderIff` | services/gateway/internal/policy/store.go:606-608 | two header names, the first of them a token, have one canonical form iff they differ in case only (section 5.1 of RFC 9110) |
| `Conditions.UniqueReading` | services/gateway/internal/policy/store.go:522-563 | every accepted tree has exactly one reading as a tagged expression: one operator per node |
| `Conditions.CompiledMeaning` | services/gateway/internal/policy/store.go:298-348 | matching the compiled tree is the meaning of the configured one, for every request, whichever order fields are tested in: case-blind verbs, path prefixes as text that continues, headers and queries by the values they carry and the text within them, addresses by the bits of the configured prefixes |
| `Policy.AcceptedRuleMeaning` | services/gateway/internal/policy/store.go:133-181 | in an accepted app every configured custom rule is present and matches a request exactly when its condition as configured holds |
| `Policy.AcceptedLimitMeaning` | services/gateway/internal/policy/store.go:421-482 | the same for every configured rate limit, which also keeps its configured figures; one without a condition counts every request |
| `Policy.AcceptedVerdict` | services/gateway/internal/policy/store.go:259-296 | what an accepted app's custom rules decide, read off the configuration alone: of the enabled rules whose condition as configured holds, the block or terminal-allow rule with the smallest priority number, the earliest of several, else the least count rule, else allow; a block carries that rule's identifier, name and status |
| `Conditions.ControlAcceptsImpliesParse` | services/control-api/internal/httpapi/server.go:660-711 | a tree the control plane accepts, the gateway parses |
| `ControlPlane.GatewayAcceptsValidated` | services/gateway/internal/policyclient/client.go:239-284 | of the policies compiled from validated drafts the gateway accepts exactly those with distinct rule identifiers, status codes in 0..999 and non-blank set names |
| `ControlPlane.GatewayRefusesDuplicateIds` | services/gateway/internal/policy/store.go:377-390 | a validated draft the gateway refuses |
| `ControlPlane.ValidateHostnames` | services/control-api/internal/httpapi/validation.go:23-55 | accepted iff not empty, every name is a plain DNS name, and no two are the same host |
| `ControlPlane.AcceptedHostnames` | services/control-api/internal/httpapi/validation.go:23-55 | accepted names reach the gateway as distinct valid DNS names, none of them an address, that normalisation leaves alone |
| `ControlPlane.SpellingsAccepted` | services/control-api/internal/httpapi/validation.go:23-55 | a DNS name in any case, between any white space, with or without a port is accepted as that name, unless it is an address |
| `PolicyLifecycle.VersionsAreDense` | services/control-api/internal/db/db.go:369-428 | in every interleaving a policy's versions are exactly 1..n, one row each, and its active version and its deployment both name n |
| `PolicyLifecycle.PublishAddsNext` | services/control-api/internal/db/db.go:369-428 | a publication compiles the row as it stands at commit, numbers it n + 1, moves both pointers, stamps the deployment with its own time, and changes nothing else of this policy and nothing of any other |
| `PolicyLifecycle.UndisturbedPublish` | services/control-api/internal/db/db.go:369-428 | a publication of a policy no one else has locked goes through to its end, whatever the history, and leaves the next version of the row, its deployment and its pointers |
| `PolicyLifecycle.PublishedIsActive` | services/control-api/internal/db/db.go:369-453 | after a publication of an enabled policy the active-policy read hands out its new version iff no other deployment of the app carries a later stamp |
| `PolicyLifecycle.CreateStoresRequest` | services/control-api/internal/db/db.go:277-303 | a creation stores the requested name, mode and draft as an enabled policy without versions and deployment, and touches no other policy |
| `PolicyLifecycle.NamesAreUnique` | services/control-api/internal/db/migrations/000001_init.up.sql:112-127 | in every interleaving of creations and updates no two policies of an app share a name |
| `PolicyLifecycle.VersionsAreImmutable` | services/control-api/internal/db/db.go:400-409 | along any run a published version keeps its row |
| `PolicyLifecycle.StoredPoliciesAreValid` | services/control-api/internal/httpapi/server.go:218-290 | every stored draft is valid and so is the draft of every version, though publishing checks one read and compiles another; versions and deployments carry their policy's tenant and app; no name is empty |
| `PolicyLifecycle.NoLostUpdate` | services/control-api/internal/db/db.go:315-367 | when an update commits with the stamp a client read, the row was the one read at every moment in between, no step wrote it, and the update applies to that row, though stamps need not increase in commit order |
| `PolicyLifecycle.UndisturbedUpdate` | services/control-api/internal/db/db.go:315-367 | an update that expects the stamp the row carries goes through if its name is free, sets exactly what the request sets, and keeps versions and deployments |
| `PolicyLifecycle.StaleUpdateRefused` | services/control-api/internal/db/db.go:315-367 | while the row carries another stamp than the update expects, the update cannot commit |
| `PolicyLifecycle.TenantIsolation` | services/control-api/internal/db/db.go:253-453 | a run of other tenants' steps changes none of a tenant's policy, list and active-policy reads |
| `PolicyLifecycle.ActivePolicyIsUnique` | services/control-api/internal/db/db.go:430-453 | the active-policy read has one answer: the newest version of an enabled policy of that tenant and app, from a valid draft |
| `PolicyLifecycle.ActivePolicyExists` | services/control-api/internal/db/db.go:430-453 | it has an answer iff the app has an enabled policy that was published |
| `Publishing.PublishedSnapshots` | services/control-api/internal/db/db.go:658-683 | every published snapshot names its own tenant, app, policy and version and the app's origin, carries the sets, rules, limits and WAF settings of a valid draft, runs in the draft's mode if that has one, else the row's, and the gateway accepts it iff its draft passes the gateway's own checks |
| `Publishing.ActivePolicyReachesGateway` | services/gateway/internal/policyclient/client.go:239-284 | the same for the policy handed out for an app, and the app the gateway makes of it has that tenant, app, policy, version, mode and origin, the host name in normal form, and no default block |
| `Publishing.PublishedRuleMeaning` | services/control-api/internal/db/db.go:658-683 | a custom rule of a published draft is in the gateway's app and matches a request exactly when its condition as drafted holds |
| `Publishing.PublishedLimitCounts` | services/gateway/internal/policyclient/client.go:239-284 | a limit of the running app counts a request iff the drafted limit is enabled and has no condition or one that holds as drafted, with the drafted figures |
| `Publishing.PublishedVerdict` | services/gateway/internal/policyclient/client.go:239-284 | what the custom rules of the running app decide is the rule of the published draft with the smallest priority number, the earliest of several, among the enabled ones whose condition as drafted holds |
| `Publishing.PublishedOutcome` | services/gateway/internal/proxy/gateway.go:178-296 | end to end, a request with a readable body: it reaches the origin iff the published mode is not block or neither a rate limit, the body limit, a decisive drafted block rule nor the WAF stops it; a decisive block rule answers with its drafted status, 403 for none |
| `AuditDispatcher.CallsAreConserved` | services/gateway/internal/audit/audit.go:290-306 | in every interleaving each call is in progress, accepted, dropped or hit the closed queue, and is counted as blocked or allowed once |
| `AuditDispatcher.TotalsAreExact` | services/gateway/internal/audit/audit.go:290-306 | the blocked total is the number of counted calls whose event blocks or rate-limits, and the allowed total that of all others |
| `AuditDispatcher.QueueIsFifo` | services/gateway/internal/audit/audit.go:290-329 | accepted = processed, then in flight, then queued, in order; the queue stays within capacity; accepted entries are exactly the accepted calls |
| `AuditDispatcher.SentIsExact` | services/gateway/internal/audit/audit.go:331-345 | the sent counter is the number of finished events some sink took |
| `AuditDispatcher.DrainedWhenDone` | services/gateway/internal/audit/audit.go:324-329 | when the worker is done every accepted event was offered once to every sink, in order |
| `AuditDispatcher.CleanShutdown` | services/gateway/internal/audit/audit.go:308-318 | with no `Log` during or after shutdown, calls = accepted + dropped = blocked + allowed to the end |
| `AuditDispatcher.WorkerProceeds` | services/gateway/internal/audit/audit.go:324-329 | after shutdown the worker always has a next step until it is done |
| `AuditDispatcher.RemainingFalls` | services/gateway/internal/audit/audit.go:324-345 | each worker step brings the end one step closer and no other step defers it |
| `AuditDispatcher.Dispatcher.Log` | services/gateway/internal/audit/audit.go:290-306 | one counter goes up, the blocked one iff the action is block or rate limit; the event is queued at the end if there is room, else dropped and counted |
| `AuditDispatcher.Dispatcher.Write` | services/gateway/internal/audit/audit.go:331-345 | every sink is offered the event once, failures included; sent goes up by one iff some sink took it |
| `AuditDispatcher.Dispatcher.Run` | services/gateway/internal/audit/audit.go:324-329 | draining offers the whole queue to each sink in order |
| `SimulationSummary.BuildSimulationSummary` | services/control-api/internal/events/events.go:204-255 | one entry per rule with a would-block event, with its count, distinct addresses, first event's name, first five non-empty request identifiers and top paths; strictly ordered by (count descending, rule identifier ascending); the counts add up to the would-block events |
| `SimulationSummary.SummaryIsUnique` | services/control-api/internal/events/events.go:204-255 | there is only one such summary, so it does not depend on the order maps are walked in |
| `SimulationSummary.SummaryOrder` | services/control-api/internal/events/events.go:248-253 | of two entries the first has the greater count, or the same count and the identifier that is smaller at the first difference |
| `Text.LessIff` | services/control-api/internal/events/events.go:244-280 | ties are in lexicographic order, ascending |
| `SimulationSummary.CountsAddUp` | services/control-api/internal/events/events.go:204-255 | any such summary accounts for every would-block event once |
| `SimulationSummary.TopPaths` | services/control-api/internal/events/events.go:257-280 | at most the limit, strictly ranked, and no omitted path outranks a listed one, whatever order the map is walked in |
| `SimulationSummary.TopIsUnique` | services/control-api/internal/events/events.go:257-280 | there is only one such list |

## Left out

- JSON and YAML decoding: drafts, policies and events are modelled after decoding. A missing mode or action is `None`, a missing collection is empty; fields of a draft that neither service reads are not in the model. The status code, priority, enabled flag and terminal-allow flag of a rule are: the control plane stores and passes them on without decoding them, and the gateway decodes them.
- Text: case mapping and the letters and digits of a host label are the ASCII ones, and lengths count characters; a host with other letters, which the gateway can accept, is refused in the model. Strings are compared character by character. IP and CIDR text is a parsed prefix with a flag for surrounding white space; an origin URL is its parsed parts; `netip.ParseAddr` is an arbitrary predicate.
- The prefix text inside the rule identifier of an IP block list decision.
- HTTP, TCP, RESP, ClickHouse and database calls, Prometheus metrics and log lines.
- Coraza: the WAF returns an arbitrary decision, nothing, or an error.
- SHA-256: an arbitrary function from text to text; no theorem assumes it injective, and bounds per key are bounds per digest; that digests have one length, or that two of them do not collide, is an explicit hypothesis where it matters.
- Clock readings are not negative, and in the policy cache the clock does not go back.
- Redis: a key lives up to and including its expiry instant, in milliseconds; the script takes effect at one instant.
- The draft and publish transactions are modelled on values, as steps of a state machine over the tables, not as methods of a repository object; each commit takes effect at once, transaction stamps are distinct, identifiers generated by the database are new, and apps and their primary origins do not change. Deleting, `UpdateApp` and its replacement of origins are not modelled.
- `GetGatewayPolicyByHostname`: host names are not unique across apps in the schema, so no isolation claim is made for it.
- `requireTenant`: each step simply carries the tenant on whose behalf it is taken.
- Config defaulting, query redaction, bearer authentication, CORS, client address extraction, the `NoopLimiter`, the worker's rule scanner and the dashboard: they would only add easy members.
- PolicyProvider.Provider.Lookup: as an object method it is proved without interference by other lookups of the same host; interleavings are the subject of `PolicyCache`.
- Serving.Serve: the lookup is the undisturbed one of `Provider.Lookup`; what concurrent lookups are answered is the subject of `PolicyCache`.
- AuditDispatcher.Dispatcher.Run: one method call at a time, on a closed queue; concurrent `Log` calls are the subject of the state machine in the same module. Time stamps of events and the five-second limit on writes are not modelled.
- The bounds on a run: counts are unbounded integers. A foreign increment, of another app or another gateway, may hit any key at any instant.
- Listing policies: the order of the list of policies by creation time is not modelled; the list is a map from identifiers to rows.
