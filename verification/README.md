# OpenShell, modelled and proved in Dafny

A Dafny 4.11 model of the protocols and state machines inside OpenShell, with proofs that hold for
every input, run or interleaving. `dafny verify dfyconfig.toml` checks the whole project.

| module | models |
|---|---|
| `OidcRotation`, `OidcWriteBack`, `OidcAtRest`, `OidcLostReply` | many processes refreshing one shared OIDC token file against a provider that retires refresh tokens (sections 5.2 and 6 of RFC 6749), as interleaved steps |
| `OidcCall` | one call of the refresher object, with every file content, clock reading, discovery document and reply |
| `OidcRefinement` | that call as a run of one client of the interleaved system |
| `ClientCredentials` | the double-checked lock around the client-credentials token, as interleaved steps |
| `Pager` | the continuation-token iterator with its bounded repeated-token guard |
| `ProcessAncestry` | the bounded ancestor walk and the PID-namespace search over arbitrary process tables |
| `ExecutableDigests` | the executable digest cache: one resolution in place, and many resolutions interleaved |
| `Cmdline` | the byte cap on command lines |
| `CredentialKey` | encoding, decoding and scoping of dynamic credential keys |
| `DocsSync`, `Redirects` | the versioned documentation branch and the ownership of its redirects |
| `ReviewPlan` | the reviewer event log, the planner, and the planner's actions as later events |
| `ReviewRaces` | histories of runs that read twice, with human events at any time |
| `PkiStore` | rename-based replacement of a certificate directory under faults and stops |
| `PolicySpec`, `PolicyGroups`, `PolicyUpdate` | rule specifications, their grouping, the two operation lists of a policy update, and the gateway's reading of one of them |
| `MountPaths` | normalization and overlap of container paths |
| `Text`, `Wrappers` | strings as the standard libraries treat them; optional values and failures |

Code that changes state in place is a class or a method with loops, proved equal to a specification
function or relation; the theorems are about that specification. Concurrent code is a transition
system whose steps are single reads, writes and messages.

Environment. File contents, replies of the identity provider and of page servers, clock readings,
process tables, operating-system faults and which cache entry is evicted are inputs. SHA-256 is a
function from cache keys to digests. `L7RuleTarget::validate`, the sanitizing of host names in
generated rule names and the parser of `--add-endpoint` are arbitrary functions, so the theorems hold
for any of them.

Where code and intent differ. "The file holds the live token at rest" is not an invariant of the
refresher: `DeadFileAtRest` gives a run, `FileAtRestExact` the exact condition on its history. The
endpoint cache can be left pointing at another issuer: `ForeignRetryMisdirects` gives the calls,
`CallStaysDirected` the exact condition on memory, file and replies. Scoping makes one undecodable
family of keys decodable: `BareKeyGainsSelector` gives a key, `ScopePreservesDecoding` the family. A
reply lost after a rotation loses the token: `KeptExactlyUntilRotationLost`. A removal planned before a
human acts may overrule them: `RaceOverrulesHuman` gives a log, `RaceExact` the exact condition.

## Model

| member | source | states |
|---|---|---|
| `OidcRotation.LiveTokenNeverLost` | python/openshell/sandbox.py:2306-2385 | In every interleaving of any number of clients over one file, with a provider that retires refresh tokens and issues ever later expiries and delivers its replies, every state of the run has the live refresh token in the file or with some client |
| `OidcRotation.RunKeepsInv` | python/openshell/sandbox.py:2306-2385 | Inductive invariant of those runs: every bundle any client or the file holds was issued with its refresh token, a rejected client really holds a retired token, and some client holds the live one unless no client has read the file yet |
| `OidcRotation.StepsKeepHolder` | python/openshell/sandbox.py:2335-2360 | No single step of any client, nor a clock tick, takes the live token away from everyone at once |
| `OidcRotation.ActorKeepsHolding` | python/openshell/sandbox.py:2335-2347 | A client holding the live token gives it up only for a newer one: neither adoption of a later-expiring file, nor a POST, nor recovery discards it |
| `OidcRotation.LaterExpiryIsNewer` | python/openshell/sandbox.py:2328-2336 | The comparison by `expires_at` is sound: of two issued bundles the later-expiring one never carries the older refresh token |
| `OidcRotation.ActorStaysOk` | python/openshell/sandbox.py:2306-2385 | The invariant of the acting client is kept by each kind of step, including accepted and rejected POSTs |
| `OidcLostReply.LostReplyExactlyWhenRotated` | python/openshell/sandbox.py:2346-2360 | Delivery is needed, exactly: if one reply to an accepted POST never arrives in a run that lost none before, the live token is gone from file and memories if and only if that POST rotated it |
| `OidcLostReply.KeptExactlyUntilRotationLost` | python/openshell/sandbox.py:2346-2360 | Over whole runs in which replies of accepted POSTs may get lost, the live token is in the file or with some client if and only if no reply carrying a new refresh token was lost so far |
| `OidcLostReply.RotationLossLeavesAllBehind` | python/openshell/sandbox.py:2346-2360 | Once such a reply is lost, neither the file nor any client has the live token |
| `OidcWriteBack.RunKeepsExclusive` | python/openshell/sandbox.py:2346-2360 | Between a rotation and the rotator's write-back nobody else, the file included, has the live token |
| `OidcWriteBack.FreshBundleIsLive` | python/openshell/sandbox.py:2317-2318 | With a provider that rotates on every POST, a fresh bundle in the file or in any memory carries the live refresh token |
| `OidcAtRest.FileDeadBySource` | python/openshell/sandbox.py:2306-2385 | In every run, whatever the provider issues and whichever writes fail, the file holds a retired token if and only if some POST was answered with a new token after the provider issued the bundle now in the file |
| `OidcAtRest.WriteBackExact` | python/openshell/sandbox.py:2357-2359 | A write-back leaves a retired token in the file if and only if it is overtaken: some POST of the run was answered with a new token between the issue of the bundle written and the write |
| `OidcAtRest.OvertakenByPeer` | python/openshell/sandbox.py:2346-2359 | An overtaken writer writes a bundle it adopted in recovery or had renewed without rotation, and another client rotated the token after that bundle was issued; a client that rotated the token itself is never overtaken |
| `OidcAtRest.FileDeadExactly` | python/openshell/sandbox.py:2357-2385 | In runs where every write-back happens the file holds a retired token if and only if a rotator has not written yet or the last write was overtaken |
| `OidcAtRest.FileAtRestExact` | python/openshell/sandbox.py:2357-2385 | At rest, with every write-back done, the file holds a retired token if and only if its last write was overtaken; earlier overtaken writes are healed |
| `OidcAtRest.DeadFileAtRest` | python/openshell/sandbox.py:2357-2385 | "The file holds the live token at rest" is false: a run of two clients with no fault and all calls finished in which the file holds a retired token |
| `OidcAtRest.EarlierExpiryLosesToken` | python/openshell/sandbox.py:2328-2336 | Later expiries are needed: a run of one client with a provider that issues an earlier expiry loses the live token |
| `OidcAtRest.LosesLastCopyExactly` | python/openshell/sandbox.py:2335-2359 | Whatever expiries the provider issues, a step loses the live token if and only if it adopts a file bundle over the last copy or writes an older bundle over it |
| `OidcRefinement.CallIsClientRun` | python/openshell/sandbox.py:2306-2385 | Every call whose environment comes from one file, clock and provider is a run of one client of the transition system from rest to rest, each step seeing that file, clock and provider at its own moment of the call and the moments ascending, with the same POSTs and answers, the same write and the same memory; the POSTs bring later expiries if the provider grants them |
| `OidcRefinement.CallKeepsLiveToken` | python/openshell/sandbox.py:2306-2385 | For every call there are steps that play it out, with its POSTs, its write and its memory, in the states it met and with later expiries; in every run of the interleaved system in which a client at rest takes them while peers act freely, it comes to rest with the memory the call leaves, and the live refresh token is never lost on the way |
| `OidcRefinement.CallExtendsRun` | python/openshell/sandbox.py:2306-2385 | Such runs exist for every call: whenever peers can lead from each file, clock and provider the call meets to the next, every run continues with the steps of the call and ends with the memory it leaves |
| `OidcCall.OidcRefresher.constructor` | python/openshell/sandbox.py:2259-2296 | A new refresher has no bundle and no endpoint |
| `OidcCall.OidcRefresher.CurrentAccessToken` | python/openshell/sandbox.py:2306-2360 | Exit, memory, POSTs and the file write of one call are those of the call specification, for every file content, clock, discovery document and reply |
| `OidcCall.OidcRefresher.RefreshStale` | python/openshell/sandbox.py:2344-2360 | The refresh, recovery and write-back part of a call, against its specification |
| `OidcCall.OidcRefresher.RecoverFromInvalidGrant` | python/openshell/sandbox.py:2362-2385 | Recovery gives up, adopts or retries as specified and changes only the cached endpoint |
| `OidcCall.OidcRefresher.RefreshBundle` | python/openshell/sandbox.py:2471-2553 | One refresh sends at most one POST and keeps the old refresh token when the reply has none |
| `OidcCall.OidcRefresher.DiscoverTokenEndpoint` | python/openshell/sandbox.py:2412-2469 | Discovery reuses a cached endpoint and otherwise caches only an endpoint whose document names the bundle's issuer |
| `OidcCall.CallIsSound` | python/openshell/sandbox.py:2317-2397 | A returned token was found fresh in this call or issued by its last POST, is the one in memory, at most two POSTs are sent, the second only after a rejection, a file write is the returned bundle, and after a granted POST the next refresh has a token to send if and only if the reply left it out or named a nonempty one |
| `OidcCall.RecoverySucceedsExactlyWhen` | python/openshell/sandbox.py:2362-2385 | When the refresh token reaches the provider and is rejected, and the re-read file has another one, the call returns if and only if that bundle is fresh or its token reaches the provider and is granted, and the write-back works; the token returned is that one |
| `OidcCall.CallStaysDirected` | python/openshell/sandbox.py:2335-2347 | From a matching endpoint cache every refresh token goes to an endpoint discovered for its own issuer, and the cache no longer matches afterwards if and only if the provider rejects the bundle, the re-read file has another stale refresh token under another issuer, that issuer yields an endpoint, and its token is not granted |
| `OidcCall.CallsStayDirected` | python/openshell/sandbox.py:2379-2385 | Over any number of calls on one refresher the cache matches throughout if and only if no call meets that condition, and then the next call is directed |
| `OidcCall.MisdirectsExactly` | python/openshell/sandbox.py:2412-2469 | Whatever the memory, a call sends some refresh token to another issuer if and only if it refreshes a bundle with a nonempty refresh token while the cache holds another issuer's endpoint |
| `OidcCall.RecoverIsDirected` | python/openshell/sandbox.py:2375-2385 | The retry inside recovery goes to its own issuer; failed recovery leaves the cache mismatched if and only if the file had another refresh token, nonempty, under another issuer with a discoverable endpoint |
| `OidcCall.ForeignRetryMisdirects` | python/openshell/sandbox.py:2379-2385 | That exception is real: two concrete calls after which a refresh token is sent to another issuer's endpoint |
| `ClientCredentials.DeliveredTokensAreUnexpired` | python/openshell/sandbox.py:401-416 | Over every interleaving of lock-free readers with locked writers and a non-decreasing clock, a token returned without the lock was unexpired at the time its check used, one returned under the lock had the grace period left, and no two threads are past the lock |
| `ClientCredentials.ExchangesAreDue` | python/openshell/sandbox.py:401-416 | An exchange starts only when the stored token is absent or within 30 seconds of expiry at the clock reading that decided it |
| `ClientCredentials.RunKeepsInv` | python/openshell/sandbox.py:401-416 | The invariant behind both: stored pair consistent except between the two stores, readers that passed precede any running fetch |
| `ClientCredentials.TokenStoreKeepsInv` | python/openshell/sandbox.py:401-416 | Storing the token before its expiry keeps every reader that already passed its check safe |
| `ClientCredentials.ExpiryStoreKeepsInv` | python/openshell/sandbox.py:401-416 | Storing the expiry afterwards restores the consistent pair |
| `Pager.Iterator.constructor` | python/openshell/sandbox.py:65-69 | A pager starts with its token, nothing consumed and no bytes counted |
| `Pager.Iterator.Next` | python/openshell/sandbox.py:86-99 | One page fetch against the step specification, and which token was sent to the server |
| `Pager.All` | python/openshell/sandbox.py:101-103 | Collecting ends in a state the specification allows, for every server: all items of the pages fetched, or the failure that stopped it |
| `Pager.PagerIsBounded` | python/openshell/sandbox.py:58-99 | For every server behaviour, up to and including the fetch that fails: at most 10,001 fetches, token count and byte budget never exceeded, and no token sent twice |
| `Pager.AllReturnsTheList` | python/openshell/sandbox.py:58-103 | Against a server whose page depends on the token sent alone and whose tokens are distinct, the result is exactly its list when the tokens fit the budget, and the budget error otherwise |
| `ProcessAncestry.CollectAncestors` | crates/openshell-binary-identity/src/lib.rs:432-464 | Over any process table, cycles included: a chain of parents, distinct, at most 64, never 0, with 1 only as root, the root only last, stopping only where a stopping rule holds; or the first parent that cannot be opened |
| `ProcessAncestry.AncestryIsUnique` | crates/openshell-binary-identity/src/lib.rs:432-464 | Those conditions leave exactly one complete chain |
| `ProcessAncestry.AncestryIsNotBlocked` | crates/openshell-binary-identity/src/lib.rs:432-464 | A table that lets the walk end well never also blocks it |
| `ProcessAncestry.BlockedIsUnique` | crates/openshell-binary-identity/src/lib.rs:432-464 | A blocked walk is blocked at exactly one process, after exactly one chain |
| `ProcessAncestry.NestedPidNamespaceInit` | crates/openshell-binary-identity/src/lib.rs:498-516 | The result is the nearest namespace init other than PID 1 within 64 hops, and `None` exactly when there is none |
| `ProcessAncestry.AncestorsReachInit` | crates/openshell-binary-identity/src/lib.rs:432-464 | When an init is found, the ancestors collected with it as root are exactly the parent chain up to and including it |
| `ProcessAncestry.NeverLeavesNamespace` | crates/openshell-binary-identity/src/lib.rs:76-84 | A resolver scoped to the PID namespace never reports a process above the namespace init, even when the bounded search misses that init |
| `ExecutableDigests.DigestCache.Store` | crates/openshell-binary-identity/src/lib.rs:237-253 | Storing records the digest and keeps every other entry, except the one evicted when the cache was full |
| `ExecutableDigests.ResolveOpenExecutable` | crates/openshell-binary-identity/src/lib.rs:159-178 | The digest is the hash of the executable whichever of the three sources answered, and only a fresh hash becomes pending |
| `ExecutableDigests.CollectDigests` | crates/openshell-binary-identity/src/lib.rs:124-141 | A digest for every process in order if and only if each can be hashed, is cached, or came up earlier in the chain |
| `ExecutableDigests.CommitPending` | crates/openshell-binary-identity/src/lib.rs:147-149 | The cache gains only pending keys, gains all and loses none when there is room, otherwise loses no more than it must, and always ends up with some pending key |
| `ExecutableDigests.CommitStep` | crates/openshell-binary-identity/src/lib.rs:237-253 | One more stored key keeps that account, whichever entry is evicted |
| `ExecutableDigests.Resolve` | crates/openshell-binary-identity/src/lib.rs:103-156 | Success exactly when every digest is obtainable and every snapshot still valid; failure leaves the shared cache untouched; success adds only executables of the chain, all of them and losing nothing when there is room, and otherwise leaves the cache exactly full with one of them in it |
| `ExecutableDigests.StoreKeepsCache` | crates/openshell-binary-identity/src/lib.rs:237-253 | Storing a true digest keeps the cache true and within 1,024 entries |
| `ExecutableDigests.SharedCacheIsSound` | crates/openshell-binary-identity/src/lib.rs:103-178 | Over every interleaving of resolvers on one cache: finished resolutions return true hashes, failed ones stored nothing, the cache stays within 1,024 entries |
| `ExecutableDigests.OnlyCommitsStore` | crates/openshell-binary-identity/src/lib.rs:143-149 | Only a commit step changes the shared cache, and it touches no other resolver |
| `Cmdline.CapCmdline` | crates/openshell-binary-identity/src/lib.rs:359-375 | A command line within the limit is kept whole; a longer one is cut to its longest prefix of whole arguments |
| `Cmdline.CapKeepsWholePaths` | crates/openshell-binary-identity/src/lib.rs:359-375 | The absolute paths read from a capped command line are a prefix of those of the full one: no truncated fragment is reported as a path |
| `Text.SplitConcat` | crates/openshell-binary-identity/src/lib.rs:519-525 | Splitting at a separator splits both sides |
| `CredentialKey.Decode` | crates/openshell-core/src/dynamic_credential_key.rs:112-171 | The seven-slot buffer decoder agrees with decoding the list of all fields, for every string |
| `CredentialKey.SplitIntoBuffer` | crates/openshell-core/src/dynamic_credential_key.rs:112-122 | The buffer holds exactly the tab-separated fields, or the key is refused because there are more than seven or a field has a control character |
| `CredentialKey.DecodeEncode` | crates/openshell-core/src/dynamic_credential_key.rs:34-87 | Decoding an encoded key returns the lowercased host, decimal port, path and provider:credential identity |
| `CredentialKey.EncodeInjective` | crates/openshell-core/src/dynamic_credential_key.rs:76-87 | Two encodings are equal if and only if all components agree up to ASCII case of the host |
| `CredentialKey.ScopeInjective` | crates/openshell-core/src/dynamic_credential_key.rs:173-190 | Scoping is injective in key, revision and installation id for tab-free ids |
| `CredentialKey.ScopePreservesDecoding` | crates/openshell-core/src/dynamic_credential_key.rs:173-190 | A scoped key decodes if and only if the key did and carried no generation yet, or is a bare host, port and identity; in the first case selector and identity are unchanged, in the second the key did not decode before and now selects host and port with the revision for a path |
| `CredentialKey.BareKeyGainsSelector` | crates/openshell-core/src/dynamic_credential_key.rs:112-190 | Such a key exists: undecodable before scoping, decoded to an endpoint selector after it |
| `CredentialKey.ScopingTwiceIsRejected` | crates/openshell-core/src/dynamic_credential_key.rs:173-190 | Scoping a decodable key that already carries a generation never gives a decodable key |
| `CredentialKey.DecodeInserted` | crates/openshell-core/src/dynamic_credential_key.rs:112-171 | The same for any field list with a revision and an installation field inserted before the identity |
| `DocsSync.DocsBranch.SyncDocs` | tasks/scripts/sync_docs_website.py:550-647 | The branch after a sync, and its status, are those of the specification, with metadata written last |
| `DocsSync.DocsBranch.WriteSnapshot` | tasks/scripts/sync_docs_website.py:470-500 | Pages and selector entry of one slug change and nothing else |
| `DocsSync.LatestTracksReleases` | tasks/scripts/sync_docs_website.py:220-266 | In every run of stable, dev and versioned syncs from an empty branch `latest` is the greatest stable version synced with that version's commit, and the version conflict on `latest` never fires |
| `DocsSync.VersionedIsImmutable` | fern/README.md:46-52 | In every run a versioned slug, once published, keeps its commit for ever |
| `DocsSync.MutableMovesForward` | tasks/scripts/sync_docs_website.py:240-266 | In every run `dev` and `latest` never move to an older version, and at one version never to another commit |
| `DocsSync.RunKeeps` | tasks/scripts/sync_docs_website.py:550-607 | Invariant: everything published is recorded with the commit it came from, and `latest` is the newest release |
| `DocsSync.StableKeepsLatest` | tasks/scripts/sync_docs_website.py:550-607 | One stable sync keeps `latest` the newest release whatever the version, and cannot end in a version conflict |
| `Redirects.SyncByOwner` | tasks/scripts/sync_docs_website.py:384-431 | After a sync each refreshed owner has exactly the source's rules in source order and every other owner exactly the rules it had, in order |
| `Redirects.SyncOrder` | tasks/scripts/sync_docs_website.py:426-430 | The channel's own rules come first in source order, and no owned rule follows an unowned one |
| `Redirects.SyncIdempotent` | tasks/scripts/sync_docs_website.py:384-431 | Syncing a channel twice from one source is syncing it once |
| `Redirects.ChannelsCommute` | tasks/scripts/sync_docs_website.py:384-431 | Syncing dev and latest in either order gives every owner the same rule sequence |
| `Redirects.SharedLastKeepsOwners` | tasks/scripts/sync_docs_website.py:428-430 | The sort never moves two rules of one owner past each other |
| `ReviewPlan.ManualReviewers` | tasks/scripts/check_review_readiness.py:106-137 | The loop over events in id order computes the specified fold and adds requests of unknown provenance |
| `ReviewPlan.ManualExact` | tasks/scripts/check_review_readiness.py:109-112 | For every event log, the fold protects a login if and only if some human event on it still stands: nothing touched it since, or only requests repeating a human request |
| `ReviewPlan.ProtectedExact` | tasks/scripts/check_review_readiness.py:106-137 | A login is protected if and only if a human decision on it stands, or it is requested although its last logged change is not a request |
| `ReviewPlan.PlanReachesSelection` | tasks/scripts/check_review_readiness.py:148-156 | After a plan a protected login is requested exactly when it was before, any other exactly when it is selected; nothing is requested twice or removed without being requested |
| `ReviewPlan.Converges` | tasks/scripts/check_review_readiness.py:140-156 | Carrying out a plan as bot events and planning again gives an empty plan, for every log, selection, request and engagement set |
| `ReviewPlan.RefreshConfirmsRemovals` | tasks/scripts/check_review_readiness.py:226-238 | After the requests of a plan are made, re-reading everything yields exactly the plan's removals and no further request |
| `ReviewPlan.RefreshedRemovalsSpareHumans` | tasks/scripts/check_review_readiness.py:228-238 | However humans act before and after the requests are made, the removals computed from the second reading spare every login a human ever touched |
| `ReviewPlan.HumanDecisionsStand` | tasks/scripts/check_review_readiness.py:106-156 | In every history of human events and planned actions the set of human-decided logins only grows, stays protected, and no automated event ever touches one again |
| `ReviewPlan.DeferentialFold` | tasks/scripts/check_review_readiness.py:106-137 | On histories in which no bot event follows a human one, the fold is the set of all logins humans ever decided |
| `ReviewPlan.RaceExact` | tasks/scripts/check_review_readiness.py:223-238 | A plan carried out after humans acted meanwhile respects them if and only if it names none of the logins they touched |
| `ReviewPlan.RaceOverrulesHuman` | tasks/scripts/check_review_readiness.py:223-238 | The race can go wrong: a human requests a login between the reading and its planned removal, and the removal overrules them |
| `ReviewRaces.DefersExactlyWithoutRaces` | tasks/scripts/check_review_readiness.py:215-238 | In every history of two-phase runs with human events anywhere, no automated change follows a human one on the same login if and only if no human changed a login between the reading behind an automated change and that change |
| `ReviewRaces.OverruleIsRace` | tasks/scripts/check_review_readiness.py:215-238 | Every automated change of a login after a human one goes back to such a race in between, in the run's first reading for a request and in its second for a removal |
| `ReviewRaces.ActsOnUndecided` | tasks/scripts/check_review_readiness.py:106-156 | An automated event of such a history only touches a login on which no human decision stood when its run read the log |
| `ReviewRaces.RemovalsSeeHumans` | tasks/scripts/check_review_readiness.py:226-238 | A removal of a login humans changed before the run's second reading happens only if an automated change took the login over between the two |
| `ReviewPlan.ProtectionKept` | tasks/scripts/check_review_readiness.py:106-156 | Acting on a plan changes the protection of no login outside it |
| `ReviewPlan.SortAppend` | tasks/scripts/check_review_readiness.py:114-119 | Later events are appended to the sorted log, whatever order the earlier ones came in |
| `PkiStore.BundleStore.constructor` | crates/openshell-bootstrap/src/mtls.rs:15-18 | The store starts from any disk, which is the first of its history |
| `PkiStore.BundleStore.StorePkiBundle` | crates/openshell-bootstrap/src/mtls.rs:15-78 | Success, the final live directory and the fate of the backup in every combination of faults; every disk passed through has the old target, the old target set aside, or the whole new bundle |
| `PkiStore.BundleStore.Prepare` | crates/openshell-bootstrap/src/mtls.rs:20-47 | The new directory is whole and non-empty exactly when no fault occurred and no content was empty; target and backup are never touched |
| `PkiStore.BundleStore.MoveAside` | crates/openshell-bootstrap/src/mtls.rs:49-62 | The live directory is in place or is the backup at every moment |
| `PkiStore.InstalledBundleSurvives` | crates/openshell-bootstrap/src/mtls.rs:10-14 | Over any sequence of calls failing or stopped anywhere, the live directory is absent or one whole bundle of one call, and once one was installed a whole bundle is live or set aside for ever |
| `PkiStore.CallsKeep` | crates/openshell-bootstrap/src/mtls.rs:10-14 | The live directory is never partial or mixed, from the first call on |
| `PkiStore.StepKeeps` | crates/openshell-bootstrap/src/mtls.rs:15-78 | Any disk a call can leave behind keeps both properties |
| `PolicySpec.AcceptedSpec` | crates/openshell-cli/src/policy_update.rs:360-404 | An accepted rule text is cut at its first three colons, its path is all the rest trimmed, its ports are the declared ones strictly ascending in 1..65535 without repeats, host lower case, method upper case, no blanks |
| `PolicySpec.ParsePrint` | crates/openshell-cli/src/policy_update.rs:360-404 | Printing any rule in that normal form and parsing it gives it back, so the normal forms are exactly the parser's results |
| `PolicySpec.ShapeExact` | crates/openshell-cli/src/policy_update.rs:363-368 | The shape error is reported if and only if the text has fewer than three colons |
| `PolicySpec.SharedExactly` | crates/openshell-cli/src/policy_update.rs:370-377 | Two accepted texts get the same host and port list if and only if their hosts agree up to case and they declare the same ports |
| `PolicySpec.CanonicalExact` | crates/openshell-cli/src/policy_update.rs:371-377 | Sorting and deduplicating keeps exactly the declared ports, ascending |
| `PolicyGroups.GroupRules` | crates/openshell-cli/src/policy_update.rs:308-353 | The grouping loop returns the specified groups, or the error of the first bad specification |
| `PolicyGroups.GroupsExact` | crates/openshell-cli/src/policy_update.rs:306-353 | Each group holds the rules of its key in command-line order and no others, keys ascend without repeats, and every specification has its group |
| `PolicyGroups.GroupsConserve` | crates/openshell-cli/src/policy_update.rs:306-353 | The groups together hold as many rules as there were specifications |
| `PolicyGroups.PushLookup` | crates/openshell-cli/src/policy_update.rs:310-316 | Pushing into the ordered map changes the entry of one key, at its end |
| `PolicyUpdate.BuildPolicyUpdatePlan` | crates/openshell-cli/src/policy_update.rs:24-219 | The plan or error of every command line is the specified one, and the gateway reads the wire operations of every accepted plan as exactly its preview |
| `PolicyUpdate.GatewayReadsPreview` | crates/openshell-server/src/grpc/policy.rs:7322-7473 | For every accepted command line the gateway's own conversion of the wire list succeeds and returns the preview list, index by index in kind, target and payload, whatever the target validator |
| `PolicyUpdate.PlanLayout` | crates/openshell-cli/src/policy_update.rs:167-206 | The plan ends with one allow operation per allow group and then one deny operation per deny group, each with its group's target and rules, and nothing before them appends |
| `PolicyUpdate.FlagHasOneOp` | crates/openshell-cli/src/policy_update.rs:167-206 | Each allow and each deny flag of an accepted command has exactly one operation of its kind holding its rule under its host and ports |
| `PolicyUpdate.FlagsShareExactly` | crates/openshell-cli/src/policy_update.rs:167-206 | Two flags of one kind end in the same operation if and only if their hosts agree up to case and they declare the same ports |
| `PolicyUpdate.TargetReadable` | crates/openshell-server/src/grpc/policy.rs:7446-7473 | A target built from accepted flags always satisfies the gateway's rule of exactly one of any-binary and a nonempty list |
| `PolicyUpdate.DistinctExact` | crates/openshell-cli/src/policy_update.rs:90-102 | Deduplication keeps every binary path literally and once |
| `PolicyUpdate.PlanAdds` | crates/openshell-cli/src/policy_update.rs:103-130 | Both lists get one equal rule addition per endpoint, or the first parse error |
| `PolicyUpdate.PlanRemovals` | crates/openshell-cli/src/policy_update.rs:132-148 | Both lists get one equal endpoint removal per flag, or the first parse error |
| `MountPaths.OverlapMeansSharedPath` | crates/openshell-core/src/driver_mounts.rs:238-245 | Two paths overlap if and only if some path lies at or below both |
| `MountPaths.MountTargetExact` | crates/openshell-core/src/driver_mounts.rs:86-99 | A normal mount target is refused if and only if some path lies at or below both it and a control root |
| `MountPaths.WorkspaceExact` | crates/openshell-core/src/driver_mounts.rs:108-121 | A workspace is accepted if and only if it is normal, does not end in a blank followed by a separator, and shares no path with a runtime or control root; the blank gives the whitespace error |
| `MountPaths.ResolveIdempotent` | crates/openshell-core/src/driver_mounts.rs:108-121 | Resolving a resolved workspace changes nothing, on every accepted input |
| `MountPaths.NormalizeIsCanonical` | crates/openshell-core/src/driver_mounts.rs:123-155 | Normalization returns the canonical spelling of the path's components and drops at most a final separator |
| `MountPaths.NormalizeAgainExact` | crates/openshell-core/src/driver_mounts.rs:123-155 | A normalized path normalizes again, and then to itself, if and only if it does not end in a blank, that is unless the input ends in a blank and a separator |
| `MountPaths.TrailingSpaceBeforeSlash` | crates/openshell-core/src/driver_mounts.rs:164-179 | Such inputs exist: every plain name followed by a blank and a slash is a normal mount target and a refused workspace |
| `MountPaths.DefaultWorkspaceIsFree` | crates/openshell-core/src/container_paths.rs:11-41 | The fallback workspace overlaps none of the fixed roots |
| `MountPaths.WorkspaceMountsExact` | crates/openshell-core/src/driver_mounts.rs:215-228 | Mounts around a workspace are accepted if and only if none covers the workspace and none shares a path with a control path |
| `MountPaths.FirstConflictExact` | crates/openshell-core/src/driver_mounts.rs:89-97 | The root named in a conflict error does overlap, and no error means none does |

## Left out

- HTTP, gRPC, TLS, browser login, key and certificate generation, output formatting and the rest of `SandboxClient`: no protocol of their own.
- The Rust CLI as another writer of the token file, and clients that exit: the runs have any number of clients of the kind modelled, which stay.
- Atomicity and durability of a single file write or rename: a rename is one step and a written token file is replaced at once.
- JSON, YAML and URL parsing: values arrive parsed; an expiry in a provider reply is an integer or absent, and a redirect arrives with its two candidate owners.
- Non-string and non-integer oddities of Python values beyond those the refresher tests for, and lone surrogates in page tokens.
- Snapshot reading in procfs: a process table does not change during a walk; executable validity at the end of a resolution is an input.
- `collect_cmdline_paths` (crates/openshell-binary-identity/src/lib.rs:528-550): order-preserving deduplication, easy.
- Docs sync: explicit rollback, removal, the `latest` channel, versioned syncs of the slugs `latest` and `dev`, navigation files, announcements, the order of the version selector, and PEP 440 versions other than X.Y.Z and X.Y.Z.devN.
- Reviewer selection from labels, and bots other than the reconciler: a history's automated events are the tool's own.
- ReviewPlan.RefreshConfirmsRemovals: is about a second reading with no event in between; with events, `RefreshedRemovalsSpareHumans` says what the removals spare.
- OidcRefinement.CallIsClientRun: is about bundles with an access token and an expiry, and replies that grant both; bundles without an expiry never expire and have no counterpart in the interleaved system.
- File permissions and the owner-only mode of the private key.
- `--add-endpoint` parsing with its options, `merge_policy`, and the gateway's `RemoveBinary` operation, which the planner never emits.
- Mount sources and subpaths: checks of one function each.
- Case folding beyond ASCII: GitHub logins are ASCII, and the Rust code folds ASCII only.
