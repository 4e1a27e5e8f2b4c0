# A verified model of the template's stateful core

A NestJS multi-tenant template, modelled in Dafny. Most of the application is wiring; this project
models the parts that hold state machines, caches and arithmetic, and proves what they promise:

* **Anti-bot form tokens.** A signed token is issued per form, checked early, measured by its signed
  `iat`, and its `jti` is spent last, in an in-memory store that sweeps once a minute and evicts at a
  cap. `TokenStore.dfy` is the store (a class over an insertion-ordered map, `InsertionOrderedMaps.dfy`)
  and its refinement of a plain map; `TokenStoreOrder.dfy` the order in which the cap throws marks out;
  `FormTokens.dfy` the token format; `AntiBotGuards.dfy` the guards
  and the time window; `AntiBotProtocol.dfy` all interleavings of concurrent requests.
* **Tenant feature flags.** `FeatureTable.dfy` is the table, the upsert and the merge;
  `FeatureCache.dfy` the TTL and capacity cache; `FeatureService.dfy` the service and the use case, and
  the theorem that with atomic operations the cache cannot be observed; `FeatureConcurrency.dfy` many
  processes with every await split and failing calls, where staleness is bounded.
* **User administration over two stores.** `Users.dfy` gives each use case as steps over the user table
  and the identity provider, repeatability after failures and the last-admin rule; `UserUseCases.dfy` the
  classes; `UserProtocol.dfy` the interleavings; `UserSessions.dfy` when a session is open in them, and the
  runs from the empty system that reach the failing cases.
* **Check digits.** `CheckDigits.dfy`: the CPF and CNPJ loops against their rules written out, and the exact set of single-digit changes
  they overlook; `CheckDigitSwaps.dfy` exactly which exchanges of neighbouring digits they let pass.
* **Audit redaction.** `AuditRedaction.dfy`: the recursive redaction of request bodies, against a relation
  between body and record and as a noninterference result in both directions.
* **Listing and identifiers.** `Pagination.dfy`, `Samples.dfy`, `SampleUseCases.dfy`: the ordered
  listing, its pages and the append-at-end rule; `Slugs.dfy` and `NanoIds.dfy`: slug normal form and
  rejection sampling. `Sorting.dfy`, `Sequences.dfy`, `Arithmetic.dfy` and `Options.dfy` are shared.

Clocks, random bytes and generated ids are parameters; the database, the identity provider and the
network are values and verdicts of the model. Classes keep the fields the program updates in place, and
their methods are proved equal to functions about which the lemmas speak.

Some statements in the source or its comments do not hold as written. Each is kept as the code has it,
shown to fail on a concrete case, and proved under its exact condition:

* `in-memory-token-store.ts:73-74` says that the oldest mark, which the cap throws out, expires first.
  Lifetimes vary per token, so it need not (`OldestMayOutlive`), and a run fills the store such that a
  longer-lived mark is thrown out (`CapThrowsOutALongerLivedMark`). The mark thrown out is due first
  exactly when the oldest retained mark is, and not after the new one (`EvictedIsDueFirstIff`); the marks
  stay in order through a first use exactly when the new expiry fits its place, the old one for an expired
  mark overwritten (`FirstUseKeepsOldestFirst`).
* An invalidation after the write does not make the cache exact: a load that read before the write can
  store after the invalidation, and a failed read-back skips the invalidation
  (`LateSetOutlivesInvalidation`, `FailedRereadSkipsInvalidation`), and no invalidation reaches another process
  (`InvalidationIsLocal`, `OtherProcessServesStale`). In any process and any interleaving a
  hit is stale exactly when the last own write committed since its load's read left other rows
  (`StaleHitIff`), and how long it can be is bounded (`AnswersAreBoundedlyStale`).
* A limit left out of a bulk update is kept only if it has not changed between that update's read and its
  write: what is written is what was read (`AbsentKeepsIff`; a lost limit in `LimitIsLost`).
* A deactivation or deletion revokes the sessions before it writes, and the identity can log in between the
  two: the user ends inactive with an open session (`DeactivatedWithSession`), or, as far as the provider does
  not end sessions with the identity, deleted with one (`DeletedWithSession`). When such an execution writes, a
  session of its target is open exactly when some login after its own revocation has met no other revocation
  (`SessionsAtTheWrite`; for any two points of any run `OpenIff`).
* An inactive user is not always one whose sessions were revoked: a profile update that read the user before
  a reactivation writes the old flag back (`StaleUpdateDeactivates`, reached in `StaleUpdateReached`). A user
  turns inactive exactly by the write of an inactive entity, a revoked deactivation's or such an update's
  (`DeactivationComesAfterRevocation`).
* The last-admin rule holds for atomic use cases (`LastAdminStays`), not for interleaved ones
  (`ConcurrentDemotionsLeaveNoAdmin`, reached in `NoAdminReached`). In any interleaving a tenant loses its
  last active admin exactly when a write meets a guard at that instant: its target is the only one and what
  is written is none (`LastAdminLostIff`, `LastAdminStaysIff`). That includes a profile update that never
  counted, because its target was no admin when it was read.
* The too-old branch of the timing guard is unreachable from a window of 999 ms on, and below that
  exactly when the minimum time exceeds 999 ms (`TooOldIffShortWindow`).
* Redaction looks at objects directly inside an array but copies an array inside an array as it is. A
  secret there reaches the log (`NestedArrayLeaks`): hidden values do not matter exactly for the bodies that
  hide nothing inside such an array (`HiddenValuesDoNotMatterIff`). Depth comes through there as well
  (`NestedArrayKeepsDepth`): the limit holds exactly when such arrays fit under it where they stand
  (`RedactBoundsNesting`). A key named `__proto__` is lost on assignment, so the keys survive exactly when it
  does not occur (`KeysSurviveIff`).

Three more observations: a form token whose mark the cap has evicted passes once more, and only then
(`AcceptedIff`, `UsesAreCounted`); two creations that both read the maximum before either saves end up newest first
(`InterleavedCreatesSwap`; `CreateInserts` says exactly when a new row comes last), and `hasPrevious` is
right only up to one page past the end (`MetaTells`).

## Model

| member | source | states |
|---|---|---|
| InsertionOrderedMaps.DropOneMore | src/anti-bot/infrastructure/persistence/in-memory-token-store.ts:83-89 | one turn of a loop that deletes the first key of a Map iterator drops exactly the oldest entry |
| TokenStores.InMemoryTokenStore.MarkUsed | src/anti-bot/infrastructure/persistence/in-memory-token-store.ts:34-49 | `true` exactly when no live mark has the jti, and then its mark expires after the given lifetime; never more than 100 000 marks; state and answer are those of the value function the lemmas below speak about |
| TokenStores.InMemoryTokenStore.Prune | src/anti-bot/infrastructure/persistence/in-memory-token-store.ts:57-67 | at most once a minute, every expired mark and no other is deleted, order kept |
| TokenStores.InMemoryTokenStore.EnforceCap | src/anti-bot/infrastructure/persistence/in-memory-token-store.ts:77-93 | above the cap exactly the excess oldest entries are deleted |
| TokenStores.PrunedIs | src/anti-bot/infrastructure/persistence/in-memory-token-store.ts:57-67 | within 60 s of the last sweep nothing changes, otherwise exactly the unexpired marks stay, in order |
| TokenStores.MarkKeepsValid | src/anti-bot/infrastructure/persistence/in-memory-token-store.ts:34-49 | after every call the size is at most 100 000 |
| TokenStores.PruneKeepsLive | src/anti-bot/infrastructure/persistence/in-memory-token-store.ts:51-67 | a sweep changes no answer now or later: the live marks at every later instant are the same |
| TokenStores.MarkOnLive | src/anti-bot/infrastructure/persistence/in-memory-token-store.ts:38-48 | the answer is `true` exactly when no live mark carries the jti, and then its own mark is present and not among the evicted; eviction only from a full store |
| TokenStores.MarkLeavesLive | src/anti-bot/infrastructure/persistence/in-memory-token-store.ts:34-49 | what any later instant sees of any other jti changes only by cap eviction |
| TokenStores.MarkWrites | src/anti-bot/infrastructure/persistence/in-memory-token-store.ts:34-49 | a call writes no mark but its own |
| TokenStores.RunTracksPlain | src/anti-bot/infrastructure/persistence/in-memory-token-store.ts:34-93 | over any run with a monotone clock, a jti the cap never evicted has the same live mark as in an unbounded, never swept map |
| TokenStores.AnswersAgree | src/anti-bot/infrastructure/persistence/in-memory-token-store.ts:34-93 | the store refines that plain map: same answers unless the cap evicted the jti before |
| TokenStores.MarksOutliveSweep | src/anti-bot/infrastructure/persistence/in-memory-token-store.ts:57-67 | with positive lifetimes every retained mark expires after the last sweep |
| TokenStores.RetainedMarksAreRecent | src/anti-bot/infrastructure/persistence/in-memory-token-store.ts:4-5 | no retained mark expired 60 s or more ago |
| TokenStoreOrder.FirstUseKeepsOldestFirst | src/anti-bot/infrastructure/persistence/in-memory-token-store.ts:38-48 | marks in order of expiry stay so through any first use if and only if the new expiry fits where the mark goes: the end, or the old place of an expired mark that is overwritten |
| TokenStoreOrder.OldestMayOutlive | src/anti-bot/infrastructure/persistence/in-memory-token-store.ts:73-74 | for any two lifetimes of different length, at any time, two marks whose older one outlives the newer, against the comment |
| TokenStoreOrder.CapThrowsOutTheOldest | src/anti-bot/infrastructure/persistence/in-memory-token-store.ts:77-89 | the cap acts exactly on a fresh jti in a full store, and throws out the oldest retained mark and nothing else |
| TokenStoreOrder.EvictedIsDueFirstIff | src/anti-bot/infrastructure/persistence/in-memory-token-store.ts:69-76 | the mark thrown out is due no later than all that stay if and only if the oldest retained mark expires first and not after the new one |
| TokenStoreOrder.CapThrowsOutALongerLivedMark | src/anti-bot/infrastructure/persistence/in-memory-token-store.ts:73-89 | for any two lifetimes of different length a run, at any time, that fills the store and has the cap throw out a mark due after one that stays |
| FormTokens.SplitThree | src/anti-bot/infrastructure/services/form-token.service.ts:87-92 | splitting at dots undoes the three-part compact form of dot-free parts |
| FormTokens.IssuedPayload | src/anti-bot/infrastructure/services/form-token.service.ts:34-73 | an issued payload has the jti and context asked for, the second it was issued in, and a lifetime that is the configured window rounded down to seconds, or one second under a shorter window |
| FormTokens.IssuedTokenVerifies | src/anti-bot/infrastructure/services/form-token.service.ts:66-105 | round trip: verifying an issued token returns the payload it was issued with |
| FormTokens.VerifiedIsNamedAndSigned | src/anti-bot/infrastructure/services/form-token.service.ts:86-126 | for any codec, a token that verifies carries a non-empty jti and ends in the signature of what stands before |
| FormTokens.VerifiedIffIssued | src/anti-bot/infrastructure/services/form-token.service.ts:86-126 | under an ideal MAC exactly the compact forms of issued payloads verify, to those payloads |
| AntiBotGuards.FormTokenGuard.CanActivate | src/anti-bot/infrastructure/guards/form-token.guard.ts:49-84 | approves exactly the tokens that verify and whose `exp` lies ahead, and leaves the payload on the request; otherwise refuses and changes nothing |
| AntiBotGuards.TimingGuard.CanActivate | src/anti-bot/infrastructure/guards/timing.guard.ts:61-128 | a fake success exactly for an age from 0 up to the minimum, a refusal exactly for one above the maximum and not below the minimum, measured from the signed `iat` or else the client field; approved otherwise, an unknown or negative age included |
| AntiBotGuards.FormTokenConsumeGuard.CanActivate | src/anti-bot/infrastructure/guards/form-token-consume.guard.ts:48-92 | without a payload it refuses the token as invalid and touches nothing; an expired one is refused as expired and touches nothing; one whose jti has a live mark is refused as invalid; otherwise it approves and leaves a mark up to the expiry of the token |
| AntiBotGuards.TooFastIsTrulyTooFast | src/anti-bot/infrastructure/guards/timing.guard.ts:70-77 | the measured age exceeds the true one by 0 to 999 ms, so a discarded submission is truly younger than the minimum |
| AntiBotGuards.TooOldUnreachable | src/anti-bot/infrastructure/guards/timing.guard.ts:79-85 | with a window of at least 999 ms, or a minimum above 999 ms, the token guard has already refused what would be too old |
| AntiBotGuards.TooOldReachable | src/anti-bot/infrastructure/guards/timing.guard.ts:79-85 | for every shorter setting and every token an instant at which the branch is taken |
| AntiBotGuards.TooOldIffShortWindow | src/anti-bot/infrastructure/guards/timing.guard.ts:79-85 | the two together, as an equivalence over all settings |
| AntiBotGuards.HonestFormPasses | src/anti-bot/infrastructure/guards/form-token.guard.ts:62-84 | for any settings, every true age from the minimum to the maximum less 1999 ms passes both guards |
| AntiBotGuards.StaleFormIsRefused | src/anti-bot/infrastructure/guards/form-token.guard.ts:62-84 | a form as old as the maximum, and at least a second old, is refused as expired |
| AntiBotProtocol.RunKeepsInv | src/anti-bot/infrastructure/decorators/anti-bot.decorator.ts:67-79 | the invariant of every interleaving: trails in stack order, marks owned by accepted requests, marks lasting to the end of their token |
| AntiBotProtocol.TokenGuardVerdict | src/anti-bot/infrastructure/guards/form-token.guard.ts:49-84 | in the protocol this guard approves, refuses as expired or refuses as invalid by verification and `exp` alone |
| AntiBotProtocol.TimingGuardVerdict | src/anti-bot/infrastructure/guards/timing.guard.ts:61-128 | in the protocol the timing verdict is told from the age by the signed `iat` and the two limits |
| AntiBotProtocol.ConsumeGuardVerdict | src/anti-bot/infrastructure/guards/form-token-consume.guard.ts:71-91 | in the protocol the consume verdict is told from `exp` and the live mark of the jti |
| AntiBotProtocol.SingleUse | src/anti-bot/infrastructure/guards/form-token-consume.guard.ts:71-91 | in every interleaving the requests let through with a jti are at most one more than the cap's evictions of its mark |
| AntiBotProtocol.AcceptedIff | src/anti-bot/infrastructure/guards/form-token-consume.guard.ts:71-91 | in every reachable state an approved request is let through if and only if its token has not expired and each use so far has been evicted by the cap, so the bound is reached |
| AntiBotProtocol.UsesAreCounted | src/anti-bot/infrastructure/persistence/in-memory-token-store.ts:69-89 | while a token could still be presented its uses are the evictions of its mark plus the use still marked |
| AntiBotProtocol.CarriedTokenWasIssued | src/anti-bot/infrastructure/services/form-token.service.ts:66-73 | in every run a payload on a request was issued by the service, lives for the configured window in whole seconds, and its token verifies to it |
| AntiBotProtocol.SpentOnlyAfterApproval | src/anti-bot/infrastructure/decorators/anti-bot.decorator.ts:70-79 | a mark appears only in an accepted request whose five earlier guards approved in order, from the token guard on with that same token |
| AntiBotProtocol.StoppedRequestLeavesNoTrace | src/anti-bot/infrastructure/decorators/anti-bot.decorator.ts:70-79 | leaving a request that never reached the consume guard out of the history gives the same store, tokens, evictions and other requests |
| AntiBotProtocol.UnspentTokenIsAccepted | src/anti-bot/infrastructure/guards/form-token-consume.guard.ts:82-91 | an approved request with an unspent, unexpired token is let through in every reachable state |
| AntiBotProtocol.RetryIsAccepted | src/anti-bot/infrastructure/decorators/anti-bot.decorator.ts:67-79 | a later submission of an unspent token that all free guards approve goes all the way through |
| FeatureTables.FindIsExact | src/tenant-feature/infrastructure/persistence/tenant-feature.typeorm-repository.ts:23-29 | a read returns each live row of the tenant exactly once, in key order |
| FeatureTables.FindDetermined | src/tenant-feature/infrastructure/persistence/tenant-feature.typeorm-repository.ts:23-29 | tables that agree key by key give the same list, whatever the order of their rows |
| FeatureTables.UpsertLookup | src/tenant-feature/infrastructure/persistence/tenant-feature.typeorm-repository.ts:42-52 | key by key what an upsert leaves, for every tenant, with one live row per tenant and key kept |
| FeatureTables.UpsertIsScoped | src/tenant-feature/infrastructure/persistence/tenant-feature.typeorm-repository.ts:39-52 | no other tenant reads anything different |
| FeatureTables.SavedAreTheWritten | src/tenant-feature/infrastructure/persistence/tenant-feature.typeorm-repository.ts:54-59 | the read-back answers exactly the written rows in key order |
| FeatureTables.TenantFeatureRepository.FindByTenantId | src/tenant-feature/infrastructure/persistence/tenant-feature.typeorm-repository.ts:23-29 | a feature is in the answer exactly if the tenant has a live row with it; strictly sorted by key |
| FeatureTables.TenantFeatureRepository.BulkUpsert | src/tenant-feature/infrastructure/persistence/tenant-feature.typeorm-repository.ts:31-60 | changes the table by the upsert and keeps the unique index; an empty list writes nothing |
| FeatureTables.BulkUpdateWrites | src/tenant-feature/application/use-cases/bulk-update-tenant-features.use-case.ts:48-89 | each listed key of the tenant ends with a live row with the flag asked for, its limit kept where absent, cleared by null, set by a number |
| FeatureTables.BulkUpdateLeaves | src/tenant-feature/application/use-cases/bulk-update-tenant-features.use-case.ts:48-89 | every other key and tenant keeps its row, and there is one live row per tenant and key |
| FeatureTables.BulkUpdateRows | src/tenant-feature/application/use-cases/bulk-update-tenant-features.use-case.ts:48-89 | the two together, as a condition on each row of the table |
| FeatureTables.BulkUpdateIsScoped | src/tenant-feature/application/use-cases/bulk-update-tenant-features.use-case.ts:48-63 | other tenants read the same list before and after |
| FeatureTables.BulkUpdateIsIdempotent | src/tenant-feature/application/use-cases/bulk-update-tenant-features.use-case.ts:48-89 | applying a request twice equals once for every reader |
| FeatureTables.BulkUpdatesCommute | src/tenant-feature/application/use-cases/bulk-update-tenant-features.use-case.ts:48-89 | requests on disjoint keys or different tenants commute |
| FeatureCaches.InMemoryTenantFeatureCache.Get | src/tenant-feature/infrastructure/cache/in-memory-tenant-feature.cache.ts:58-69 | the unexpired list or a miss, which deletes an expired entry |
| FeatureCaches.InMemoryTenantFeatureCache.Set | src/tenant-feature/infrastructure/cache/in-memory-tenant-feature.cache.ts:71-92 | sweep, eviction and write together give the value function, and the size limit is kept |
| FeatureCaches.InMemoryTenantFeatureCache.EvictOldest | src/tenant-feature/infrastructure/cache/in-memory-tenant-feature.cache.ts:80-86 | the eviction loop ends, with the map size as measure, having dropped exactly the oldest entries in excess |
| FeatureCaches.InMemoryTenantFeatureCache.Invalidate | src/tenant-feature/infrastructure/cache/in-memory-tenant-feature.cache.ts:94-96 | removes the tenant's entry and nothing else |
| FeatureCaches.InMemoryTenantFeatureCache.Prune | src/tenant-feature/infrastructure/cache/in-memory-tenant-feature.cache.ts:98-105 | keeps exactly the unexpired entries in order |
| FeatureCaches.SetKeepsValid | src/tenant-feature/infrastructure/cache/in-memory-tenant-feature.cache.ts:71-92 | the size never exceeds `maxTenants` |
| FeatureCaches.SetWrites | src/tenant-feature/infrastructure/cache/in-memory-tenant-feature.cache.ts:71-92 | the tenant's entry is the new one and every other entry is an old unexpired one |
| FeatureCaches.RoomMadeIs | src/tenant-feature/infrastructure/cache/in-memory-tenant-feature.cache.ts:76-86 | what a set leaves before it writes: the unexpired entries in order, only the newest `maxTenants - 1` of them when there are as many as the limit |
| FeatureCaches.SetIs | src/tenant-feature/infrastructure/cache/in-memory-tenant-feature.cache.ts:71-92 | the whole cache after a set: those, and the new entry at its old place or at the end |
| FeatureCaches.SetKeepsByExpiry | src/tenant-feature/infrastructure/cache/in-memory-tenant-feature.cache.ts:71-92 | a set after a miss keeps insertion order equal to expiry order |
| FeatureCaches.EvictsSoonestToExpire | src/tenant-feature/infrastructure/cache/in-memory-tenant-feature.cache.ts:77-86 | then nothing evicted is due later than anything kept |
| FeatureServices.TenantFeatureService.LoadFeatures | src/tenant-feature/application/services/tenant-feature.service.ts:87-102 | reply and cache after a load, for an empty tenant, a hit and a miss |
| FeatureServices.TenantFeatureService.IsFeatureEnabled | src/tenant-feature/application/services/tenant-feature.service.ts:34-40 | enabled when the loaded list lacks the key, otherwise the flag of the first entry with it |
| FeatureServices.TenantFeatureService.GetNumericLimit | src/tenant-feature/application/services/tenant-feature.service.ts:42-48 | null when the loaded list lacks the key, otherwise the limit of the first entry with it |
| FeatureServices.TenantFeatureService.GetAllFeatures | src/tenant-feature/application/services/tenant-feature.service.ts:55-72 | the list AllInIsExact characterises |
| FeatureServices.AllInIsExact | src/tenant-feature/application/services/tenant-feature.service.ts:50-72 | strictly sorted, every declared or persisted key once, persisted state where there is one, otherwise enabled without limit |
| Sorting.StringLeqIs | src/tenant-feature/application/services/tenant-feature.service.ts:64 | the order of keys: a prefix first, otherwise by the first differing character |
| FeatureServices.FirstIsListed | src/tenant-feature/application/services/tenant-feature.service.ts:79-85 | the first match that `find` returns is the only one |
| FeatureServices.BulkUpdateTenantFeaturesUseCase.Execute | src/tenant-feature/application/use-cases/bulk-update-tenant-features.use-case.ts:32-72 | when it refuses and with what; otherwise the rows of the listed keys field by field, all others untouched, the answer being exactly the listed rows in key order, and the tenant's cache entry dropped |
| FeatureServices.CacheIsUnobservable | src/tenant-feature/application/services/tenant-feature.service.ts:34-102 | with atomic operations every cache entry equals the tenant's rows and all replies equal a cacheless service's, for any TTL, capacity, clock and tenants |
| FeatureServices.UpdateIsServed | src/tenant-feature/application/services/tenant-feature.service.ts:34-48 | after an admitted update, in any history and cache state, both reads of a listed key answer what was asked for; an omitted limit is the one answered before |
| FeatureServices.UpdateLeavesOthers | src/tenant-feature/application/services/tenant-feature.service.ts:34-48 | every other key, and every key of another tenant, is answered as before |
| FeatureServices.RunByExpiry | src/tenant-feature/application/services/tenant-feature.service.ts:94-101 | in every reachable state under a monotone clock insertion order is expiry order |
| FeatureServices.EvictionTakesSoonest | src/tenant-feature/infrastructure/cache/in-memory-tenant-feature.cache.ts:76-91 | in every reachable state what a load after a miss throws out unexpired is due no later than anything it leaves |
| FeatureConcurrency.RunKeepsInv | src/tenant-feature/application/services/tenant-feature.service.ts:87-102 | the invariant of N processes with every await split and any call failing |
| FeatureConcurrency.AnswersAreBoundedlyStale | src/tenant-feature/application/services/tenant-feature.service.ts:87-102 | every list handed out is what the table held at some earlier instant; on a hit that is less than the TTL plus that load's read-to-set delay ago |
| FeatureConcurrency.FreshUntilOwnWrite | src/tenant-feature/application/use-cases/bulk-update-tenant-features.use-case.ts:63-68 | a list goes out of date only by a committed write for its own tenant |
| FeatureConcurrency.StaleHitWasInFlight | src/tenant-feature/application/use-cases/bulk-update-tenant-features.use-case.ts:65-68 | an entry that outlives an invalidation in its process was stored after it, and if it is older than the write, its load read before the write |
| FeatureConcurrency.StaleHitIff | src/tenant-feature/application/use-cases/bulk-update-tenant-features.use-case.ts:63-68 | in any process, with or without an invalidation, a hit differs from the table if and only if the last own write committed since its load read left other rows; that write came no earlier than the read, and every invalidation there no later than the set |
| FeatureConcurrency.LateSetOutlivesInvalidation | src/tenant-feature/application/services/tenant-feature.service.ts:99-100 | a run in which such a load makes the next hit stale |
| FeatureConcurrency.FailedRereadSkipsInvalidation | src/tenant-feature/infrastructure/persistence/tenant-feature.typeorm-repository.ts:49-57 | a run in which a failed read-back leaves the old list in the cache |
| FeatureConcurrency.FailureEnds | src/tenant-feature/application/use-cases/bulk-update-tenant-features.use-case.ts:48-68 | a read, write or read-back that fails ends its operation: caches stay as they are, and a failed write may have reached the table |
| FeatureConcurrency.InvalidationIsLocal | src/tenant-feature/infrastructure/cache/in-memory-tenant-feature.cache.ts:18-24 | an invalidation changes the cache of its own process only, and there only the tenant's entry |
| FeatureConcurrency.OtherProcessServesStale | src/tenant-feature/infrastructure/cache/in-memory-tenant-feature.cache.ts:18-24 | a run without any failure in which another process serves the old list after the invalidation |
| FeatureConcurrency.WriteMerges | src/tenant-feature/application/use-cases/bulk-update-tenant-features.use-case.ts:48-68 | a committed write gives each listed key the flag asked for and its limit from the request or from the rows this execution read; unlisted keys keep the row they have by then |
| FeatureConcurrency.AbsentKeepsIff | src/tenant-feature/application/use-cases/bulk-update-tenant-features.use-case.ts:81-89 | in any interleaving a limit left out is kept if and only if it has not changed since the execution read it |
| FeatureConcurrency.AbsentKeepsUndisturbed | src/tenant-feature/application/use-cases/bulk-update-tenant-features.use-case.ts:41-48 | it is kept when no write for the tenant was committed in between |
| FeatureConcurrency.LimitIsLost | src/tenant-feature/application/use-cases/bulk-update-tenant-features.use-case.ts:48-63 | a run in which a limit set in between is lost |
| Users.ExecuteEndsInFinal | src/user/application/use-cases/delete-user.use-case.ts:41-83 | wherever an execution fails, the world it leaves still has the undisturbed run's end ahead of it |
| Users.RetryReachesUndisturbedEnd | src/user/application/use-cases/set-user-active.use-case.ts:77-90 | after any number of failed attempts, repeating the request alone reaches the world of the undisturbed run |
| Users.UndisturbedEnd | src/user/application/use-cases/delete-user.use-case.ts:25-36 | an admitted deletion or deactivation ends with exactly the target's sessions gone, exactly its identity gone for a deletion, its row marked, and nothing else changed |
| Users.UndisturbedUpdate | src/user/application/use-cases/update-user.use-case.ts:38-53 | an admitted profile update writes each of name, phone and role that is given, keeps those that are not, and changes no other field, row, identity or session |
| Users.UndisturbedActivation | src/user/application/use-cases/set-user-active.use-case.ts:77-91 | an activation makes the user active and changes nothing else |
| Users.UndisturbedAnswer | src/user/application/use-cases/delete-user.use-case.ts:41-76 | which of the refusals or success each of the three use cases answers, in which order, and that a refusal changes nothing |
| Users.CreateAdds | src/user/application/use-cases/create-user.use-case.ts:21-44 | a creation adds exactly the active user asked for, or nothing when the e-mail, provider id or id is taken |
| Users.LastAdminStays | src/user/infrastructure/persistence/user.typeorm-repository.ts:98-102 | over any sequence of atomic creates, updates, activations and deletions, failing anywhere, a tenant with an active admin keeps one |
| Users.LastAdminRefusalUnreachable | src/user/application/use-cases/update-user.use-case.ts:30-88 | for a caller who is an active admin of the tenant no use case ends in the last-admin refusal |
| UserUseCases.UserRepository.FindById | src/user/infrastructure/persistence/user.typeorm-repository.ts:30-33 | found exactly if a row with that id, of that tenant and not deleted, exists, and then it is that row |
| UserUseCases.UserRepository.CountActiveAdminsByTenantId | src/user/infrastructure/persistence/user.typeorm-repository.ts:98-102 | the count is 0 exactly when no row is a live active admin of the tenant, and at most 1 exactly when no two different rows are |
| UserUseCases.UserRepository.Update | src/user/infrastructure/persistence/user.typeorm-repository.ts:49-66 | field by field the row after the write and when the read-back fails; tenant, provider id and deletion are never written, nor is another row or a row of another tenant |
| UserUseCases.UserRepository.SoftDelete | src/user/infrastructure/persistence/user.typeorm-repository.ts:68-70 | afterwards the tenant has no live row with that id; every other row, and every other field, is as it was |
| UserUseCases.DeleteUserUseCase.Execute | src/user/application/use-cases/delete-user.use-case.ts:41-83 | success leaves exactly the row deleted and its identity and sessions gone; for every script of failing calls both stores and the answer are those of the step machine |
| UserUseCases.SetUserActiveUseCase.Execute | src/user/application/use-cases/set-user-active.use-case.ts:35-99 | success leaves exactly the flag changed, and the sessions gone for a deactivation; otherwise the same |
| UserUseCases.UpdateUserUseCase.Execute | src/user/application/use-cases/update-user.use-case.ts:20-55 | success leaves name, phone and role as given or as they were, and nothing else changed; otherwise the same |
| UserUseCases.UpdateUserUseCase.AssertNotLastAdmin | src/user/application/use-cases/update-user.use-case.ts:65-88 | refuses exactly a demotion of an active admin when at most one is counted |
| UserProtocol.RunKeepsInv | src/user/application/use-cases/delete-user.use-case.ts:41-83 | the invariant of all interleavings: distinct live provider ids, and what each suspended execution has already done |
| UserProtocol.DeletedUserHasNoIdentity | src/user/application/use-cases/delete-user.use-case.ts:25-36 | in every interleaving a soft-deleted user's identity is already gone |
| UserProtocol.IdentityRemovedByOwnDeletion | src/user/application/use-cases/delete-user.use-case.ts:78-80 | an identity disappears only by a deletion of its own user, after that execution revoked the sessions |
| UserProtocol.DeactivationComesAfterRevocation | src/user/application/use-cases/set-user-active.use-case.ts:77-90 | an active row turns inactive if and only if an inactive entity is written to it, by a deactivation that has revoked or by a profile update that read it inactive |
| UserProtocol.StaleUpdateDeactivates | src/user/application/use-cases/update-user.use-case.ts:38-53 | the second case happens, and leaves a session open |
| UserProtocol.ConcurrentDemotionsLeaveNoAdmin | src/user/application/use-cases/update-user.use-case.ts:79-87 | two interleaved demotions leave a tenant of two admins with none |
| UserProtocol.LastAdminLostIff | src/user/application/use-cases/update-user.use-case.ts:65-88 | in any reachable interleaving an event takes the last active admin away if and only if its write targets the only one and writes back none |
| UserProtocol.LastAdminStaysIff | src/user/infrastructure/persistence/user.typeorm-repository.ts:98-102 | over a whole interleaved run a tenant keeps an active admin at every later point if and only if no write in between meets that guard |
| UserSessions.OpenIff | src/user/application/use-cases/set-user-active.use-case.ts:77-90 | between any two points of any run: an identity has an open session at the later one if and only if some login since has met no effective revocation, or it had one at the earlier and none was revoked |
| UserSessions.OwnRevocation | src/user/application/use-cases/set-user-active.use-case.ts:77-90 | an execution marked as revoked has in the run the completed revocation of the identity its target names |
| UserSessions.SessionsAtTheWrite | src/user/application/use-cases/set-user-active.use-case.ts:77-91 | when a revoked execution writes, a session of its target is open if and only if some login after its own revocation has met no other one |
| UserSessions.TheseWritesHaveRevoked | src/user/application/use-cases/delete-user.use-case.ts:78-80 | that covers every write of a deletion and of a deactivation |
| UserSessions.DeactivatedWithSession | src/user/application/use-cases/set-user-active.use-case.ts:77-91 | a run from the empty system in which a deactivation succeeds and a session opened in between stays |
| UserSessions.DeletedWithSession | src/user/application/use-cases/delete-user.use-case.ts:78-80 | the same for a deletion |
| UserSessions.StaleUpdateReached | src/user/application/use-cases/update-user.use-case.ts:38-53 | a run from the empty system in which a profile update undoes a reactivation after a login |
| UserSessions.NoAdminReached | src/user/application/use-cases/update-user.use-case.ts:79-87 | a run from the empty system that loses the last admin to two interleaved demotions |
| CheckDigits.ValidateCpf | src/common/utils/validate-cpf.ts:1-26 | accepts exactly eleven digits, two of them different, whose last two are ten times the two weighted sums, modulo 11 and 10 read as 0 |
| CheckDigits.ValidateCnpj | src/common/utils/validate-cnpj.ts:1-29 | the same for fourteen digits |
| CheckDigits.CpfRule | src/common/utils/validate-cpf.ts:9-23 | the same with the two sums written out digit by digit |
| CheckDigits.CnpjRule | src/common/utils/validate-cnpj.ts:8-26 | the same for a CNPJ |
| CheckDigits.RepeatedDigitsAreRefused | src/common/utils/validate-cnpj.ts:6 | a text whose digits are all the same is refused by both validators |
| CheckDigits.CleanedCharacter | src/common/utils/validate-cpf.ts:2 | each decimal digit is read with its value, every other character dropped |
| CheckDigits.PunctuationIsIgnored | src/common/utils/validate-cpf.ts:2 | inserting a non-digit anywhere never changes either verdict |
| CheckDigits.OnePairOfCheckDigits | src/common/utils/validate-cnpj.ts:8-26 | each base has exactly one pair of check digits that satisfies the sums |
| CheckDigits.CpfMissesOnly | src/common/utils/validate-cpf.ts:9-23 | two accepted CPFs that differ in one digit differ by 1 at position 0, or by 2 or 9 at position 5 |
| CheckDigits.CnpjMissesOnly | src/common/utils/validate-cnpj.ts:9-26 | two accepted CNPJs that differ in one digit differ by 2 or 9 at position 0 or 8, or by 5 or 6 at position 4 |
| CheckDigits.CpfBlindSpotsAreReal | src/common/utils/validate-cpf.ts:9-23 | each of those changes occurs between two accepted CPFs |
| CheckDigits.CnpjBlindSpotsAreReal | src/common/utils/validate-cnpj.ts:9-26 | each of those changes occurs between two accepted CNPJs |
| CheckDigitSwaps.CpfSwapPassesIff | src/common/utils/validate-cpf.ts:9-23 | after exchanging two unequal neighbouring digits an accepted CPF stays accepted if and only if they come before the check digits, differ by one, and both sums are 0 modulo 11 (digits rising) or 1 (falling); the ninth digit and the first check digit must be 0 and 1; the two check digits never |
| CheckDigitSwaps.CnpjSwapPassesIff | src/common/utils/validate-cnpj.ts:9-26 | the same for a CNPJ, where an exchange at either pair of positions at which a weight goes from 2 to 9 never passes |
| CheckDigitSwaps.CpfSwapsMissedOnly | src/common/utils/validate-cpf.ts:9-23 | two accepted CPFs one exchange apart differ there by one |
| CheckDigitSwaps.CnpjSwapsMissedOnly | src/common/utils/validate-cnpj.ts:9-26 | two accepted CNPJs one exchange apart differ there by one, and not at the two excluded pairs |
| CheckDigitSwaps.CpfSwapsAreReal | src/common/utils/validate-cpf.ts:9-23 | at each of the nine positions and in either direction two accepted CPFs are one exchange apart |
| CheckDigitSwaps.CnpjSwapsAreReal | src/common/utils/validate-cnpj.ts:9-26 | the same for the ten positions of a CNPJ |
| AuditRedaction.RedactLoop | src/common/interceptors/audit-log.interceptor.ts:168-199 | the loop that fills the result computes the recursive function, every branch included |
| AuditRedaction.RedactMasksIff | src/common/interceptors/audit-log.interceptor.ts:168-199 | that function gives the one record of its source: at every level sensitive entries and all from the fifth level on are exactly "[REDACTED]", keys stay in order but for `__proto__`, and every other value is the source's |
| AuditRedaction.SanitizedBodyIs | src/common/interceptors/audit-log.interceptor.ts:154-159 | which bodies leave a record, that in it every sensitive entry of the body reads "[REDACTED]", and that plain entries that are not sensitive are as they were |
| AuditRedaction.RedactNoninterference | src/common/interceptors/audit-log.interceptor.ts:168-199 | two outputs are equal if and only if the inputs agree on everything visible above the depth limit and off sensitive keys |
| AuditRedaction.HiddenValuesDoNotMatterIff | src/common/interceptors/audit-log.interceptor.ts:168-199 | a body gives the same output as every body that agrees with it off hidden values if and only if it hides nothing inside an array directly in an array |
| AuditRedaction.HiddenValuesDoNotMatter | src/common/interceptors/audit-log.interceptor.ts:154-199 | the same of the record kept for a request body |
| AuditRedaction.NestedArrayLeaks | src/common/interceptors/audit-log.interceptor.ts:186-191 | a secret in an array inside an array reaches the record |
| AuditRedaction.KeysSurviveIff | src/common/interceptors/audit-log.interceptor.ts:161-175 | all keys survive exactly when none is `__proto__` |
| AuditRedaction.RedactBoundsNesting | src/common/interceptors/audit-log.interceptor.ts:36-37 | the output nests objects no deeper than the limit if and only if every copied array fits under it where it stands |
| AuditRedaction.NestedArrayKeepsDepth | src/common/interceptors/audit-log.interceptor.ts:186-191 | objects of any depth come through in an array inside an array |
| AuditRedaction.RedactTwice | src/common/interceptors/audit-log.interceptor.ts:168-199 | redacting an output again changes nothing |
| Pagination.ParsePaginationParams | src/common/utils/pagination.util.ts:8-18 | for any query the page is at least 1 and the page size between 1 and 100 |
| Pagination.ParamsHonoured | src/common/utils/pagination.util.ts:12-16 | a decimal number is honoured up to the limits, whatever follows its digits; zero gives the default, a negative number 1 |
| Pagination.ParseIntSkips | src/common/utils/pagination.util.ts:12-16 | white space and a plus sign before a number are skipped |
| Pagination.ParamsGarbage | src/common/utils/pagination.util.ts:12-16 | a text that starts like no number counts as absent |
| Pagination.ParamsDefaults | src/common/utils/pagination.util.ts:12-16 | an absent query means page 1 of 20 |
| Pagination.TotalPagesIsLeast | src/common/utils/pagination.util.ts:25 | the page count is the least number of pages that holds everything |
| Pagination.PagesPartition | src/sample/infrastructure/persistence/sample.typeorm-repository.ts:51-52 | pages 1 to totalPages put together are the list; exactly those have rows; all but the last are full |
| Pagination.EachRowOnOnePage | src/sample/infrastructure/persistence/sample.typeorm-repository.ts:48-52 | each row is on one page only, the one its place gives |
| Pagination.MetaTells | src/common/utils/pagination.util.ts:26-33 | `hasNext` holds exactly when the next page has rows; when `hasPrevious` is right |
| Samples.ListingIsUnique | src/sample/infrastructure/persistence/sample.typeorm-repository.ts:46-50 | the listing is the one list of the tenant's live samples in this order |
| Samples.TiesNeedTheId | src/sample/infrastructure/persistence/sample.typeorm-repository.ts:48-52 | without the id two tied neighbours of a listing may be swapped, and a page boundary between them then shows one row twice and the other never |
| Samples.CreateInserts | src/sample/application/use-cases/create-sample.use-case.ts:28-35 | a new row leaves the others in order and other tenants alone; when it comes last |
| Samples.AppendsAtEnd | src/sample/application/use-cases/create-sample.use-case.ts:28-32 | creating without a position turns the list L into L followed by the new sample; the first gets 0 |
| Samples.InterleavedCreatesSwap | src/sample/application/use-cases/create-sample.use-case.ts:31-35 | two creations that read the same maximum end up newest first |
| Samples.DeleteRemoves | src/sample/infrastructure/persistence/sample.typeorm-repository.ts:86-88 | a deletion takes one row out of one tenant's list and keeps the order |
| Samples.UpdateMovesOne | src/sample/infrastructure/persistence/sample.typeorm-repository.ts:70-79 | an update keeps the order of all other rows in every tenant |
| SampleUseCases.SampleRepository.Save | src/sample/infrastructure/persistence/sample.typeorm-repository.ts:24-34 | adds exactly the new row, or fails on a taken id or an out-of-range position without a change |
| SampleUseCases.SampleRepository.FindAll | src/sample/infrastructure/persistence/sample.typeorm-repository.ts:41-55 | how many rows a page has and the place of each in the order, all of them live rows of the tenant, sorted and once each, and the number of all live rows |
| SampleUseCases.SampleRepository.GetMaxSortOrder | src/sample/infrastructure/persistence/sample.typeorm-repository.ts:57-68 | the largest position among the tenant's live samples, or -1 |
| SampleUseCases.SampleRepository.Update | src/sample/infrastructure/persistence/sample.typeorm-repository.ts:70-84 | writes the row of that tenant, succeeds exactly when it is live, and leaves the order of all others |
| SampleUseCases.SampleRepository.SoftDelete | src/sample/infrastructure/persistence/sample.typeorm-repository.ts:86-88 | the tenant's list without the row; every other tenant's list unchanged |
| SampleUseCases.CreateSampleUseCase.Execute | src/sample/application/use-cases/create-sample.use-case.ts:21-34 | when it succeeds, what it saves and where it lands; failure changes nothing |
| SampleUseCases.AppendFailsIff | src/sample/infrastructure/persistence/sample.typeorm-entity.ts:41-42 | appending fails exactly when a live sample has the largest position the column holds |
| SampleUseCases.ListSamplesUseCase.Execute | src/sample/application/use-cases/list-samples.use-case.ts:21-38 | a page of the listing with metadata that tells the truth about the pages |
| Slugs.HyphenateJoinsWords | src/common/utils/slug.util.ts:15-16 | the two replacements give exactly the runs of letters and digits joined by single hyphens |
| Slugs.SlugIsNormal | src/common/utils/slug.util.ts:10-17 | every slug is in normal form and keeps the words, and so the letters and digits, of the folded text |
| Slugs.SlugCharacters | src/common/utils/slug.util.ts:15 | the characters of a slug other than hyphens are exactly the a to z and 0 to 9 of the folded text |
| Slugs.FixedPointsAreNormal | src/common/utils/slug.util.ts:10-17 | the fixed points are exactly the strings in normal form |
| Slugs.SlugifyIsIdempotent | src/common/utils/slug.util.ts:10-17 | a slug of a slug is the slug |
| NanoIds.GenerateNanoId | src/common/utils/slug.util.ts:26-38 | returns the letters of the first eight bytes below the ceiling, exactly when the batches hold eight, from as few batches as possible |
| NanoIds.TakeBatch | src/common/utils/slug.util.ts:30-34 | the inner loop: accepted bytes of one batch are appended until the identifier is full |
| NanoIds.ImagesAreLetters | src/common/utils/slug.util.ts:32 | every character given is from the alphabet |
| NanoIds.ByteGives | src/common/utils/slug.util.ts:30-33 | a byte below the largest multiple of the alphabet's size gives the letter at its remainder, any other nothing |
| NanoIds.SourceByteGives | src/common/utils/slug.util.ts:3-7 | for the 62 letters: bytes from 248 on give nothing, the others A to Z, a to z, 0 to 9 by their remainder |
| NanoIds.CeilingIsFair | src/common/utils/slug.util.ts:6-7 | below 256 - 256 % n every letter has the same number of bytes, for every alphabet of 1 to 256 letters |
| NanoIds.AllBytesFavourTheFirst | src/common/utils/slug.util.ts:22-24 | without the ceiling exactly the first 256 % n letters have one byte more |
| NanoIds.EveryLetterIsAsLikely | src/common/utils/slug.util.ts:22-32 | every character of an alphabet without repetitions is given by equally many accepted bytes |
| NanoIds.EachCharacterHasFourBytes | src/common/utils/slug.util.ts:3-7 | the ceiling is 248 and each of the 62 characters is given by four bytes |

## Left out

- The token store is the one of a single process; more instances, a restart and the warning log are not modelled.
- The clock read of the consume guard and that of the store lie in one synchronous segment and are one value here; with two values a token at its last millisecond could be spent twice.
- HMAC, base64url, JSON and UUIDs are a `Codec` with stated assumptions (`Ideal`, `NotForged`; `IdealCodecExists` shows that they can be met); the header is already trimmed, and a missing or repeated header is the empty string.
- The client's `_t` field is an optional integer; strings that JavaScript turns into fractions are not modelled.
- Honeypot, Turnstile and the challenge layer are arbitrary verdicts; the body-sanitizing interceptor is not part of this model.
- Strings are compared by code point. Database collations are not modelled, and the `sort()` of the feature listing compares UTF-16 code units, which differs for characters above U+FFFF against U+E000 to U+FFFF. Timestamps are integers.
- Integer ranges of the database are modelled for `sortOrder` only; JavaScript numbers above 2^53 and infinite page numbers are not.
- Request schemas (Zod) appear only as the facts a use case relies on, such as distinct keys in a bulk update.
- Response mapping, role, tenant and feature guards, logging, Swagger and HTTP are wiring.
- Other use cases of users and features (list, current user, password, the feature listing endpoint) are short reads or calls to the provider.
- The user listing sorts by creation time only, so its pages need not partition the list; it is left out.
- What the identity provider does to sessions when an identity is deleted is left open: the model keeps them, so the proofs do not rely on it.
- The revocation and deletion calls of the provider are idempotent, as its documentation and the source's comments say.
- `deletedAt` is a flag; restoring a deleted row does not occur in the source.
- The sensitive-key pattern is an arbitrary predicate on keys, so nothing depends on the words it lists. A top-level Date or Buffer body is read by its own entries, as the source does.
- The Unicode fold of `slugify` is an arbitrary function; idempotence and fixed points assume only that it leaves slugs as they are.
- Queues, realtime gateway, storage, health checks, migrations and configuration parsing are not part of this model.
