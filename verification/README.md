# Verified models of Parako.ID

Parako.ID is an OpenID Connect server. This project models the parts of it whose correctness
depends on more than one function, and proves what they promise over every input, every
interleaving or every run of requests.

| area | files | main results |
|---|---|---|
| import-cycle analysis and ratchet | `Graph`, `Sorting`, `Tarjan`, `SccSearch`, `ImportCycles`, `ArchitecturePolicy` | the depth-first search returns exactly the cyclic strongly connected components and throws exactly for an empty module name; a reported cycle contains an added import |
| configuration manager | `ConfigManager`, `ConfigEffects`, `ConfigManagerObject`, `ConfigBroadcast` | single flight, fair mutual exclusion, rollback and the currency of tenant entries in every interleaving; agreement of all processes once no message is pending |
| configuration trees | `DeepMerge`, `DeepMergeHeap`, `ConfigTree`, `ComputedFields`, `ComputedDefaults`, `ComputedValues`, `ComputedConfig` | laws of the deep merge on values and on the heap, the exact condition for its associativity; frame, idempotence and distinct issuers of the computed defaults |
| accounts | `LoginSession`, `LoginEffects`, `LoginController`, `SocialIntegrations`, `SocialLogin`, `Recovery`, `RecoveryEffects`, `RecoveryController`, `RecoveryLogin`, `MfaChallenges`, `WebAuthnChallenges`, `WebAuthnController` | every sign-in of every run is explained by the factors accepted before it in the same session; links to providers stay unique, and users keep a way in; recovery records stay well formed, codes are spent once and guessing is bounded; challenges are used once and in time |
| build and lookup loops | `CommentStripper`, `ClientSearch` | the stripping loop ends with no comment left; the shared-visited search equals a plain first match |

Code that computes values is modelled by functions; objects that change are classes whose methods
are proved against those functions (`SccSearch.Search`, `ConfigManagerObject.Manager`,
`DeepMergeHeap.JsObject`, the controllers). Clocks, random secrets, verifiers, lookups, locale
orders, `dirname` and host-name parsing are parameters, or answers that come with a step; what a
verifier answered goes into a history that the theorems speak about.

Each transition system is told twice: by handler, as the program is written, and from the outside,
by what may put an event into a history or change a stored value (`LoginEffects`, `RecoveryEffects`,
`ConfigEffects`, `ComputedValues`, and the last parts of `SocialIntegrations`, `ConfigBroadcast` and
`RecoveryLogin`). Lemmas over every state and step connect the two.

Some things hold only under a condition, and the condition is proved:

- the cycle search throws its stack-underflow error exactly when some module has the empty name,
  because the test for an empty stack also catches `''`;
- the list of cycles is determined by the edges when the locale order ties no two components; a
  locale order ties more than equal strings (canonically equivalent spellings compare equal), and
  the contract of the analysis leaves the order of tied components open;
- merging three trees is associative exactly when `DeepMerge.Compatible` holds, a condition on
  where the last tree has an object over a non-object of the middle one;
- applying the computed defaults twice draws new secrets exactly when a section that holds a secret
  is an array, since a property set on an array is lost by the JSON copy;
- reactivating a link does not store the new provider subject, so without the unique index (the
  SQLite schema has none) a step keeps one active link per subject exactly when it does not
  reactivate a record whose old subject was linked again meanwhile.

A cached tenant entry is current exactly when the base its load cloned and the base cached now come
out the same once that tenant's overrides are laid over them. It can be stale after a load that
straddled an install, after `flushInitial` and after a late rollback; a run is given for each. Its
overrides were read after the last invalidation exactly when no invalidation fell between reading
and storing; otherwise an invalidated tenant comes back with old overrides, and a run shows it.

The deep merge copies arrays one level deep and assigns other objects by reference, so what the
source holds in arrays or by reference is shared with the target; exactly that, and nothing else of
the source. The challenge of the login-time WebAuthn check is cleared only after a success, so it is
handed to the verifier once exactly when every refusal is followed by a new challenge; the
challenges of the WebAuthn controller are single-use without that condition.

## Model

| member | source | states |
|---|---|---|
| `Tarjan.EnterKeepsInv` | scripts/testing/check-architecture.ts:513-517 | numbering and pushing a node keeps: no edge leaves the closed nodes, and every stacked node reaches a node still being visited |
| `Tarjan.AboveIsMutual` | scripts/testing/check-architecture.ts:519-534 | every node stacked above the visited one is mutually reachable with it |
| `Tarjan.TopIsComponent` | scripts/testing/check-architecture.ts:534-543 | when low-link equals index, the part of the stack to be popped is exactly the strongly connected component |
| `Tarjan.ScanIndexed` | scripts/testing/check-architecture.ts:526-531 | the update from an already numbered dependency keeps the low-link both reachable and a lower bound |
| `Tarjan.ScanChild` | scripts/testing/check-architecture.ts:520-525 | so does the update after a recursive visit |
| `Tarjan.PopKeepsInv` | scripts/testing/check-architecture.ts:536-543 | popping the component keeps the search invariant |
| `Tarjan.LeaveKeepsInv` | scripts/testing/check-architecture.ts:534-534 | returning early leaves every stacked node with a way to a node still being visited |
| `Tarjan.CyclicTest` | scripts/testing/check-architecture.ts:545-548 | more than one member or a self-import holds exactly for cyclic components |
| `SccSearch.Search.Visit` | scripts/testing/check-architecture.ts:512-549 | the recursive visit keeps the invariant, terminates, and throws only if a module has the empty name |
| `SccSearch.Search.ScanDependencies` | scripts/testing/check-architecture.ts:519-532 | after the loop every dependency is numbered and the low-link accounts for all of them |
| `SccSearch.Search.PopMember` | scripts/testing/check-architecture.ts:539-541 | the stack never runs out, and only the empty name is falsy |
| `SccSearch.Search.PopComponent` | scripts/testing/check-architecture.ts:536-543 | the pop loop restores the earlier stack and returns what lay above it, each once |
| `SccSearch.Search.Record` | scripts/testing/check-architecture.ts:545-548 | recorded components stay exactly the cyclic ones among the closed nodes, sorted and disjoint |
| `ImportCycles.SortedKeys` | scripts/testing/check-architecture.ts:551-551 | all modules, in order |
| `ImportCycles.VisitAll` | scripts/testing/check-architecture.ts:551-553 | every module is visited and the stack is empty afterwards |
| `ImportCycles.FindStronglyConnectedComponents` | scripts/testing/check-architecture.ts:502-558 | returns every cyclic component once, disjoint and sorted, nothing else; throws exactly when some module has the empty name |
| `ImportCycles.JoinInjective` | scripts/testing/check-architecture.ts:555-557 | the sort key identifies a component when names have no line break |
| `ImportCycles.CycleGrows` | scripts/testing/check-architecture.ts:502-558 | adding imports keeps every cyclic component inside a cyclic component |
| `ImportCycles.PlainNamesNeverTie` | scripts/testing/check-architecture.ts:555-557 | where the order ties equal strings only, names without line breaks never tie |
| `ImportCycles.ListingDependsOnEdges` | scripts/testing/check-architecture.ts:545-557 | graphs with equal edges give the same list, whatever the order or repetition of dependencies, if the locale order ties no two components |
| `ImportCycles.ListingUniqueIff` | scripts/testing/check-architecture.ts:555-557 | the contract of the analysis allows one list exactly when the locale order ties no two components |
| `ImportCycles.EmptyNameUnderflows` | scripts/testing/check-architecture.ts:540-540 | a single module with the empty name and no import makes the analysis throw |
| `ArchitecturePolicy.EvaluateArchitecturePolicy` | scripts/testing/check-architecture.ts:629-663 | the report is the ordered list of the violations and holds exactly the justified ones |
| `ArchitecturePolicy.ReportIff` | scripts/testing/check-architecture.ts:629-663 | a violation is listed exactly when a cycle, module or count exceeds the baseline |
| `ArchitecturePolicy.OwnBaselinePasses` | scripts/testing/check-architecture.ts:608-618 | a snapshot passes against the baseline created from it |
| `ArchitecturePolicy.AllowedIff` | scripts/testing/check-architecture.ts:620-627 | a cycle is allowed exactly when its modules lay on one common cycle of the baseline graph |
| `ArchitecturePolicy.ReportedCycleHasAddedEdge` | scripts/testing/check-architecture.ts:608-639 | a reported cycle contains an import between its own modules that the baseline graph lacked |
| `ArchitecturePolicy.RemovalPasses` | scripts/testing/check-architecture.ts:608-639 | removing modules or imports never yields a reported cycle |
| `ConfigManager.StepKeepsInv` | src/config/index.ts:151-208 | every stretch of code between two awaits keeps the invariant on cache, locks, chain and tenant entries |
| `ConfigManager.RunKeepsInv` | src/config/index.ts:462-554 | so does every interleaving |
| `ConfigManager.SingleFlight` | src/config/index.ts:735-753 | at most one load per tenant is in flight, and a call that finds a lock starts none |
| `ConfigManager.LandOk` | src/config/index.ts:748-752 | only the call that created a lock entry deletes it |
| `ConfigManager.LockIsFairMutex` | src/config/index.ts:462-471 | one holder at a time, in order of arrival |
| `ConfigManager.ChainNeverSticks` | src/config/index.ts:462-554 | while an update is unfinished, the head of the queue can always take a step |
| `ConfigManager.ServedWithinDistance` | src/config/index.ts:462-554 | a queued update is resolved within three steps of the queue for every update in line, whatever else runs in between |
| `ConfigManager.TenantEntryCurrentIff` | src/config/index.ts:762-798 | a cached entry is current exactly when the cloned and the current base come out the same for it; so if they are equal, and only if, where deriving tells these two apart |
| `ConfigManager.TenantEntryIsCurrent` | src/config/index.ts:762-798 | a cached entry is the overlay of the overrides it read on the current base, unless its load straddled an install or a later install kept the tenant cache |
| `ConfigManager.StraddlingLoadIsStale` | src/config/index.ts:770-788 | a reachable state where a straddling load left an entry of the old base |
| `ConfigManager.KeepingInstallIsStale` | src/config/index.ts:686-728 | a reachable state where `flushInitial` left an entry of the old base |
| `ConfigManager.LateRollbackIsStale` | src/config/index.ts:499-554 | a reachable state where a late rollback left an entry of the withdrawn base |
| `ConfigManager.ReadSinceInvalidationIff` | src/config/index.ts:773-808 | a cached entry's overrides were read after the last invalidation exactly when none fell between reading and storing |
| `ConfigManager.InvalidatedComesBack` | src/config/index.ts:773-808 | a reachable state where an invalidated tenant is cached again with the overrides read before |
| `ConfigManager.SnapshotIsFixed` | src/config/index.ts:499-500 | the snapshot of a lock holder never changes while it holds |
| `ConfigManager.FailedUpdateRestores` | src/config/index.ts:499-554 | whatever ran in between, a failed update puts back the base cached when it acquired the lock, and releases it |
| `ConfigEffects.EnabledIff` | src/config/index.ts:462-554 | which stretch of code can run when: loads go on once, updates acquire in turn, install once, finish after that |
| `ConfigEffects.Beginning` | src/config/index.ts:83-116 | the manager starts with nothing cached, and the first update waits for nobody |
| `ConfigEffects.BaseAfter` | src/config/index.ts:151-208 | exactly which steps change the base, to what, and which of them forget the tenants |
| `ConfigEffects.TenantAfter` | src/config/index.ts:735-808 | an entry is dropped by an eviction, stored by a load with what it cloned and read, and otherwise kept |
| `ConfigEffects.EvictionsAfter` | src/config/index.ts:803-858 | exactly the invalidations of a tenant, or of all, count for it |
| `ConfigEffects.LocksAfter` | src/config/index.ts:735-753 | a lock appears with a load and goes when it was awaited |
| `ConfigEffects.LoadsAfter` | src/config/index.ts:762-798 | what becomes of each load |
| `ConfigEffects.ChainAfter` | src/config/index.ts:462-554 | what each step does to the queue; a holder's snapshot is the base of the moment it acquired |
| `ConfigEffects.ReloadsAfter` | src/config/index.ts:560-618 | a reload remembers the base of its start |
| `ConfigManagerObject.Reached` | src/config/index.ts:83-116 | the states of the object are reachable states of the transition system |
| `ConfigManagerObject.Manager.EnsureTenantConfig` | src/config/index.ts:735-770 | starts a load exactly when neither an entry nor a lock exists, with a clone of the base of that moment |
| `ConfigManagerObject.Manager.OverridesAreRead` | src/config/index.ts:773-775 | the answer of the override service is fixed before the manager stores it |
| `ConfigManagerObject.Manager.OverridesArrive` | src/config/index.ts:770-788 | stores the overlay of the overrides read on the clone taken before the await |
| `ConfigManagerObject.Manager.GetConfig` | src/config/index.ts:381-397 | fails exactly without a base; a tenant with an entry gets it, current exactly as above; anyone else gets the base |
| `ConfigManagerObject.Manager.OverridesReadFailed` | src/config/index.ts:790-798 | the load settles, nothing is cached, and its lock can be released |
| `ConfigManagerObject.Manager.ReleaseTenantLock` | src/config/index.ts:748-752 | deletes the lock entry that this load owns and no other |
| `ConfigManagerObject.Manager.AcquireConfigUpdateLock` | src/config/index.ts:462-471 | queues behind the old tail with a newer ticket than any unfinished update |
| `ConfigManagerObject.Manager.BeginUpdate` | src/config/index.ts:499-500 | remembers the base of the moment the lock was granted |
| `ConfigManagerObject.Manager.InstallUpdate` | src/config/index.ts:516-518 | installs the base and empties the tenant cache |
| `ConfigManagerObject.Manager.RollBackUpdate` | src/config/index.ts:542-553 | restores the remembered base, keeps the tenant cache, releases the lock |
| `ConfigManagerObject.Manager.FinishUpdate` | src/config/index.ts:551-553 | releases the lock |
| `ConfigManagerObject.Manager.BeginReload` | src/config/index.ts:560-568 | remembers the base of that moment and enables the end of the reload |
| `ConfigManagerObject.Manager.InstallReload` | src/config/index.ts:602-603 | installs the base and empties the tenant cache |
| `ConfigManagerObject.Manager.RollBackReload` | src/config/index.ts:607-609 | restores the base remembered at the start |
| `ConfigManagerObject.Manager.InstallInitial` | src/config/index.ts:719-720 | installs a base and keeps the tenant cache |
| `ConfigManagerObject.Manager.HandleDbProviderChange` | src/config/index.ts:178-191 | installs the base and empties the tenant cache |
| `ConfigManagerObject.Manager.HandleGlobalInvalidation` | src/config/index.ts:855-858 | empties the tenant cache and keeps the base until the reload |
| `ConfigManagerObject.Manager.ClearCache` | src/config/index.ts:648-656 | empties both |
| `ConfigManagerObject.Manager.InvalidateTenantConfig` | src/config/index.ts:803-808 | drops that tenant's entry and no other |
| `ConfigBroadcast.StepKeepsInv` | src/config/index.ts:803-873 | whatever is stale in a process has a message on its way that repairs it |
| `ConfigBroadcast.QuietMeansAgreed` | src/config/index.ts:499-554 | in every run, a process with no message pending serves the stored configuration and up-to-date tenant entries |
| `ConfigBroadcast.StoreIsLatest` | src/config/index.ts:502-516 | in every run the store holds the settings of the last update, and each tenant's overrides as last saved |
| `ConfigBroadcast.QuietServesLatest` | src/config/index.ts:499-554 | in every run, a process with no message pending serves the last update, and each tenant the overrides last saved |
| `ConfigBroadcast.BaseAfter` | src/config/index.ts:502-518 | the updating process has the new base at once; another gets it by the message |
| `ConfigBroadcast.InboxAfter` | src/config/index.ts:521-539 | every process is told of every update and save |
| `ConfigBroadcast.TenantAfter` | src/config/index.ts:803-873 | an entry is forgotten by an eviction of its own tenant or of all, own messages are ignored, and siblings stay |
| `ConfigBroadcast.DeliveryDrains` | src/config/index.ts:852-873 | handling a message publishes none and changes no stored data |
| `DeepMerge.MergedKeys` | src/db/utils.ts:159-160 | the three prototype names are never merged, and every other key of the source is |
| `DeepMerge.GetMeans` | src/db/utils.ts:151-179 | where a path leads |
| `DeepMerge.SourceLeafWins` | src/db/utils.ts:151-179 | every safe leaf or array of the source is what the result holds there |
| `DeepMerge.UntouchedPathKept` | src/db/utils.ts:151-179 | every path the source does not touch keeps the target's value |
| `DeepMerge.MergeIdempotent` | src/db/utils.ts:151-179 | merging the same source twice is merging it once |
| `DeepMerge.OverwrittenIff` | src/db/utils.ts:151-179 | exactly when merging into a tree leaves no trace of that tree |
| `DeepMerge.AssociativeIff` | src/db/utils.ts:151-179 | associative exactly on shape-compatible trees |
| `DeepMerge.NotAssociative` | src/db/utils.ts:151-179 | a scalar between two objects breaks associativity |
| `DeepMerge.MergeShares` | src/db/utils.ts:164-174 | a merge holds by reference everything its source holds below safe keys, in arrays or as properties, and otherwise only what the target held |
| `DeepMergeHeap.JsObject.MergeFrom` | src/db/utils.ts:151-179 | in place: only the target changes, the source is untouched, and the value is the merge; every plain object and array the target did not have is fresh, and of the source exactly what it holds by reference below safe keys is shared |
| `DeepMergeHeap.JsObject.MergeKey` | src/db/utils.ts:159-175 | one key: arrays are copied one level deep, objects merged into a copy, the rest assigned |
| `DeepMergeHeap.JsObject.MergedChild` | src/db/utils.ts:167-172 | the nested merge works on a copy made of new objects and of objects below the target, none of the source's |
| `DeepMergeHeap.JsObject.ChildCopy` | src/db/utils.ts:167-171 | a spread of the target's object, or an empty one |
| `ConfigTree.GetSet` | src/utils/nested-value.ts:35-67 | what was written is read back |
| `ConfigTree.SetGot` | src/utils/nested-value.ts:35-67 | writing what is there changes nothing |
| `ConfigTree.GetSetApart` | src/utils/nested-value.ts:35-67 | a write is not seen on an unrelated path, even when it replaces a scalar by an object |
| `ConfigTree.SetsCommute` | src/utils/nested-value.ts:53-67 | writes to unrelated paths commute |
| `ConfigTree.CloneSet` | src/config/computed-fields.ts:212-212 | the JSON copy drops a write that went through an array and keeps any other |
| `ConfigTree.GetClone` | src/config/computed-fields.ts:212-212 | the copy reads the same, except below an array |
| `ComputedFields.RulesFrame` | src/config/computed-fields.ts:222-438 | a list of rules changes nothing on paths apart from its own |
| `ComputedDefaults.RuleDecides` | src/config/computed-fields.ts:222-438 | each field ends up as its own original value decides, whatever the other fields hold |
| `ComputedDefaults.DrawnIff` | src/config/computed-fields.ts:156-265 | a secret is drawn exactly when one was missing; an empty string is not missing |
| `ComputedDefaults.WritesSurviveClone` | src/config/computed-fields.ts:210-438 | copying a result and writing the same values again gives the same result |
| `ComputedDefaults.ComputedFrame` | src/config/computed-fields.ts:21-49 | only the registered fields and the four integration URLs are written |
| `ComputedDefaults.ComputedIsIdempotent` | src/config/computed-fields.ts:210-438 | a second run with any other random source draws no secret exactly when no section holding a secret is an array, and then changes nothing |
| `ComputedDefaults.ListIsRedrawn` | src/config/computed-fields.ts:156-265 | a configuration whose `security.secrets` is an empty list gets a new JWT secret on every run |
| `ComputedDefaults.IssuersDiffer` | src/config/computed-fields.ts:270-306 | different dot-free tenant ids on subdomains get different issuers, whatever their URLs and OIDC paths |
| `ComputedValues.BaseIs` | src/config/computed-fields.ts:214-297 | the base URL: the platform's without trailing slashes; for a tenant its scheme with the tenant's own domain, or with the subdomain of the platform's host |
| `ComputedValues.IssuerIs` | src/config/computed-fields.ts:299-309 | the issuer is the explicit one if truthy, and the base with the OIDC path otherwise |
| `ComputedValues.UrlIs` | src/config/computed-fields.ts:311-380 | a discovery or integration URL that was set survives; any other is the base with its suffix |
| `ComputedValues.NameIs` | src/config/computed-fields.ts:383-409 | the MFA names replace nothing but the placeholder, by the company's name |
| `ComputedValues.RelyingPartyIs` | src/config/computed-fields.ts:411-435 | the relying party is the tenant's domain or the platform's host, unless one was set |
| `ComputedValues.NoUrlNoFields` | src/config/computed-fields.ts:299-435 | without a platform URL no URL and no relying party is written |
| `ComputedValues.ThrowsIff` | src/config/computed-fields.ts:214-216 | throws exactly for a URL that is truthy and no text |
| `ComputedValues.SecretIs` | src/config/computed-fields.ts:222-265 | a secret that was set stays, an empty text included; a missing one is drawn with its length, and no two share a draw |
| `ComputedValues.RegisteredPaths` | src/config/computed-fields.ts:21-49 | the eleven registered paths |
| `ComputedValues.OtherPaths` | src/config/computed-fields.ts:214-380 | the paths of the integration URLs and of what is only read |
| `ComputedValues.DomainIssuer` | src/config/computed-fields.ts:278-309 | a tenant with a text as its domain gets its issuer there |
| `ComputedValues.DomainIssuersDiffer` | src/config/computed-fields.ts:278-309 | different slash-free domains get different issuers, for OIDC paths that begin with a slash |
| `ComputedValues.DomainIssuersEqualIff` | src/config/computed-fields.ts:278-309 | on one platform, two such issuers are equal exactly when domain and path run together the same |
| `ComputedConfig.ApplyComputedDefaults` | src/config/computed-fields.ts:210-438 | the sequence of guarded assignments has the outcome of the rules for the inputs at the start, or throws for a truthy URL that is no string |
| `ComputedConfig.GenerateSecrets` | src/config/computed-fields.ts:222-265 | the four secrets, in order of drawing |
| `ComputedConfig.DeriveUrls` | src/config/computed-fields.ts:299-381 | issuer always, discovery and integration URLs only where nothing truthy is set |
| `ComputedConfig.DeriveDiscovery` | src/config/computed-fields.ts:299-341 | the issuer is always written, the discovery URLs only where nothing truthy is set |
| `ComputedConfig.DeriveIntegrations` | src/config/computed-fields.ts:343-381 | the four integration URLs, only where nothing truthy is set |
| `ComputedConfig.DeriveMfa` | src/config/computed-fields.ts:383-435 | names and relying-party id replace nothing but placeholders |
| `SocialIntegrations.StepIsEffect` | src/integration/base-social-login.ts:69-174 | every link, unlink, callback and registration step makes exactly the write its guards call for, record by record |
| `SocialIntegrations.StepAnswers` | src/integration/base-social-login.ts:209-524 | every step answers linked, refused or thrown exactly as its guards call for |
| `SocialIntegrations.EmailLinkIff` | src/integration/base-social-login.ts:432-480 | without a session, a callback links exactly a verified email's owner, when linking by email is on and the record can be created |
| `SocialIntegrations.CallbackTouchesOnly` | src/integration/base-social-login.ts:209-524 | a callback touches nobody's links but the session user's or those of the owner of a verified email |
| `SocialIntegrations.IndexedRunKeepsUnique` | src/integration/base-social-login.ts:226-429 | with the unique index, every run keeps one active record per provider and subject |
| `SocialIntegrations.UniqueAfterStepIff` | src/integration/base-social-login.ts:315-365 | without it, a step keeps that exactly when its guards do not lead to reactivating a record whose subject is linked again |
| `SocialIntegrations.UnindexedCanDuplicate` | src/integration/base-social-login.ts:298-365 | a run of callbacks and one unlink, from an empty store, that ends with two active records of one subject |
| `SocialIntegrations.CallbackKeepsUser` | src/integration/base-social-login.ts:226-279 | with a user signed in, a successful callback is for that user |
| `SocialIntegrations.RunKeepsAccess` | src/controllers/account.controller.ts:2607-2631 | through every run, a user with a password or an active link keeps one of them |
| `SocialIntegrations.CompensationRestores` | src/integration/base-social-login.ts:384-429 | a compensated link leaves everyone's active records as they were |
| `SocialLogin.Provider.LinkToUser` | src/integration/base-social-login.ts:69-134 | refuses a linked subject or user, reactivates an old record, or creates one |
| `SocialLogin.Provider.UnlinkAccount` | src/controllers/account.controller.ts:2582-2631 | refuses to take the last way in, otherwise deactivates the record |
| `SocialLogin.Provider.LinkCurrentUser` | src/integration/base-social-login.ts:298-429 | the branch for a signed-in user, with its limits and its compensating write |
| `SocialLogin.Provider.HandleUserIntegration` | src/integration/base-social-login.ts:209-524 | the whole callback as the step of the store |
| `LoginSession.StepKeepsInv` | src/controllers/auth.controller.ts:409-509 | every request keeps: each sign-in is explained, each pending user passed a first factor in this session and no MFA sign-in has happened since, each listed account was signed in during it |
| `LoginSession.EveryLoginIsExplained` | src/controllers/auth.controller.ts:1883-2014 | in every run, an MFA sign-in directly follows that user's accepted second factor, and that user's first factor was accepted in the same session with no MFA sign-in since; `processLogin` and `socialCallback` sign in only users without MFA; a recovery signs in the user it was last requested for in the session; a registration signs in an account never heard of before |
| `LoginSession.EveryAccountWasAuthenticated` | src/utils/session.ts:2823-2983 | every account listed in the session was signed in during it by an explained event |
| `LoginSession.OnlyAccountAdded` | src/utils/session.ts:3092-3186 | signing in adds no other account to the list |
| `LoginSession.SwitchKeepsAccounts` | src/utils/session.ts:3035-3090 | switching adds no account |
| `LoginSession.MfaLoginsAreBounded` | src/controllers/auth.controller.ts:2362-2443 | for every user, MFA sign-ins never outnumber the accepted first factors of that same user |
| `LoginEffects.HistoryIs` | src/controllers/auth.controller.ts:409-509 | every request adds exactly the events its answers call for |
| `LoginEffects.FirstFactorIff` | src/controllers/auth.controller.ts:409-509 | a first factor is recorded exactly when accepted |
| `LoginEffects.SecondFactorIff` | src/controllers/auth.controller.ts:1883-2014 | a second factor is recorded exactly when a verifier accepted the waiting user's own factor |
| `LoginEffects.MfaSignInIff` | src/controllers/auth.controller.ts:1883-2014 | an MFA sign-in happens exactly then, if the account may join |
| `LoginEffects.PasswordSignInIff` | src/controllers/auth.controller.ts:409-509 | a password alone signs in exactly users without MFA that may join |
| `LoginEffects.SocialSignInIff` | src/controllers/auth.controller.ts:4873-5128 | and so does a social login that was not asked for a mere link |
| `LoginEffects.RecoveryProofIff` | src/controllers/auth.controller.ts:3086-3186 | a recovery proof is recorded exactly on an accepted answer for the user being recovered |
| `LoginEffects.RecoverySignInIff` | src/controllers/auth.controller.ts:3874-4168 | a recovery signs in exactly then |
| `LoginEffects.RefusalChangesNothing` | src/controllers/auth.controller.ts:1940-1960 | a refused code, assertion or recovery leaves the whole session as it was |
| `LoginEffects.EveryMfaLoginWasAccepted` | src/controllers/auth.controller.ts:1883-2014 | in every run, whoever was signed in with a second factor was waiting for it, and a verifier had just accepted it for that user |
| `LoginEffects.EveryRecoveryWasAccepted` | src/controllers/auth.controller.ts:3404-3624 | in every run, whoever a recovery signed in was being recovered, and the answer had just been accepted |
| `LoginEffects.ActivateMeans` | src/utils/session.ts:2823-2983 | signing in puts the account in front and keeps the others |
| `LoginEffects.AddMeans` | src/utils/session.ts:3092-3186 | joining appends the account active before, within the limits |
| `LoginEffects.SwitchMeans` | src/utils/session.ts:3035-3090 | switching trades the active account for the first one called so |
| `LoginEffects.PendingAfter` | src/controllers/auth.controller.ts:2223-2253 | who waits for a second factor, and which method is asked for |
| `LoginEffects.ChallengeAfter` | src/controllers/auth.controller.ts:2353-2415 | the challenge is set for a waiting user and spent by an accepted assertion |
| `LoginEffects.LinkIntentAfter` | src/controllers/auth.controller.ts:4873-5128 | a link request lasts until the next social callback |
| `LoginEffects.RecoveryAfter` | src/controllers/auth.controller.ts:2924-3022 | who is being recovered, by what, and whether an SMS code is out |
| `LoginEffects.EmailCodeAfter` | src/controllers/auth.controller.ts:3778-3973 | whom an emailed code is for |
| `LoginEffects.UsersAfter` | src/utils/session.ts:2823-3186 | the account list changes by a sign-in, a switch or the end of the session, and never otherwise |
| `LoginEffects.SignedInIsActive` | src/utils/session.ts:2823-3186 | whoever a request signs in is active afterwards |
| `MfaChallenges.HandedOnceIff` | src/controllers/auth.controller.ts:2374-2415 | the login-time challenges are each handed to the verifier at most once exactly when every refusal is followed by a new challenge before the next assertion |
| `MfaChallenges.RefusedStays` | src/controllers/auth.controller.ts:2374-2415 | refused any number of times, the challenge stays and is handed over every time |
| `LoginController.FindIndex` | src/utils/session.ts:2823-2983 | the search loop finds the first account with that id or name |
| `LoginController.Controller.SetAuthenticated` | src/utils/session.ts:2823-2983 | makes the account active and keeps the others, or throws on a blank name |
| `LoginController.Controller.AddAuthenticatedUser` | src/utils/session.ts:3092-3186 | adds the account within the limits |
| `LoginController.Controller.ProcessLogin` | src/controllers/auth.controller.ts:409-509 | an accepted password parks an MFA user and signs in any other |
| `LoginController.Controller.SocialCallback` | src/controllers/auth.controller.ts:4873-5128 | a link request never signs in; an MFA user is parked |
| `LoginController.Controller.ProcessMfaSelect` | src/controllers/auth.controller.ts:2223-2253 | only an enabled method can be chosen |
| `LoginController.Controller.ProcessMfaVerify` | src/controllers/auth.controller.ts:1883-2014 | signs in the pending user once the verifier accepted |
| `LoginController.Controller.ProcessMfaWebAuthn` | src/controllers/auth.controller.ts:2362-2443 | spends the challenge and signs in the pending user |
| `LoginController.Controller.ProcessAccountRecovery` | src/controllers/auth.controller.ts:2892-2930 | remembers the user only if a method is available |
| `LoginController.Controller.ProcessRecoveryMethodSelect` | src/controllers/auth.controller.ts:2966-3022 | only an available method can be chosen |
| `LoginController.Controller.RecoverAccount` | src/controllers/auth.controller.ts:3086-3186 | an accepted proof removes the key and signs in the user stored in it |
| `LoginController.Controller.ProcessRecoveryVerifyCode` | src/controllers/auth.controller.ts:3874-4168 | an SMS code that is out takes precedence; an emailed code signs in the user it was sent for |
| `RecoveryLogin.EnabledIff` | src/controllers/auth.controller.ts:3404-3624 | backup codes are used through the handler alone, and match only stored codes |
| `RecoveryLogin.LetsInIff` | src/controllers/auth.controller.ts:3404-3460 | a code lets in exactly the user being recovered, when unlocked and a stored code matched |
| `RecoveryLogin.RecordsAfter` | src/controllers/auth.controller.ts:3421-3556 | a step changes the record of one user at most |
| `RecoveryLogin.SessionsAfter` | src/controllers/auth.controller.ts:3404-3624 | and one session at most |
| `RecoveryLogin.SessionMatchesLedger` | src/controllers/auth.controller.ts:3404-3624 | over all sessions, backup codes let in exactly the users whose codes were spent, session by session and in order |
| `RecoveryLogin.RecordMatchesLedger` | src/controllers/auth.controller.ts:3421-3556 | each user's record runs through its own changes, and the ledger lists exactly the codes that this spent |
| `RecoveryLogin.RecoveriesSpendOwnCodes` | src/controllers/auth.controller.ts:3404-3624 | between two generations, recoveries of a user over all sessions used distinct codes of that user's own record, all gone |
| `Recovery.Normalize` | src/controllers/account.controller.ts:45-66 | the supported names, each once |
| `Recovery.NormalizeStable` | src/controllers/account.controller.ts:52-66 | a list of supported names without repetitions is already normal |
| `Recovery.NormalizeIdempotent` | src/controllers/account.controller.ts:52-66 | normalising twice is normalising once |
| `Recovery.StepKeepsWellFormed` | src/controllers/account.controller.ts:166-182 | each operation keeps: no repeated method, enabled exactly with a method, data exactly for the listed methods, lockout count within bounds |
| `Recovery.RunKeepsWellFormed` | src/controllers/account.controller.ts:2713-3050 | so does every sequence of operations |
| `Recovery.DisablingKeepsWellFormed` | src/controllers/account.controller.ts:3197-3245 | disabling a method drops its data, and the last one the whole record |
| `RecoveryEffects.CodesAfter` | src/controllers/account.controller.ts:3501-3527 | stored codes are replaced by exactly the new ones, lose the one that let somebody in, or stay |
| `RecoveryEffects.GenerationStores` | src/controllers/account.controller.ts:3515-3525 | after a generation exactly its codes are stored; regeneration needs recovery enabled |
| `RecoveryEffects.OnlyLatestCodesRecover` | src/controllers/account.controller.ts:3501-3527 | over every run, a code that is not of the latest generation never recovers |
| `RecoveryEffects.RecoversIff` | src/controllers/auth.controller.ts:3421-3460 | a visitor is let in exactly with a matching code of a record that is not locked |
| `RecoveryEffects.DataAfter` | src/controllers/account.controller.ts:2993-3050 | address, questions and SMS data are the given ones, gone when dropped, and otherwise kept |
| `RecoveryEffects.DisabledFields` | src/controllers/account.controller.ts:3197-3245 | disabling drops the data of that method, or everything with the last one, and nothing else |
| `RecoveryEffects.MethodsAfter` | src/controllers/account.controller.ts:2713-3050 | a method is listed exactly when added, or when it was and is not dropped |
| `RecoveryEffects.UnsupportedAfter` | src/controllers/account.controller.ts:166-182 | an unsupported name survives exactly the steps that do not normalise |
| `RecoveryEffects.EnabledAfter` | src/controllers/account.controller.ts:3197-3245 | recovery is enabled by adding a method and disabled with the last one |
| `RecoveryEffects.LockoutAfter` | src/utils/recovery.ts:746-858 | the fifth failure locks for half an hour, an expired lockout starts afresh, a recovery clears, and nothing else touches it |
| `RecoveryEffects.CountedIff` | src/utils/recovery.ts:789-858 | what the bound on guessing counts |
| `Recovery.CodesAreSpentOnce` | src/controllers/auth.controller.ts:3397-3624 | between two generations, the codes that let somebody in are distinct, were stored and are gone; together with the remaining ones they are the generated set |
| `Recovery.RecoveriesAreBounded` | src/controllers/auth.controller.ts:3397-3624 | recoveries never outnumber the distinct codes |
| `Recovery.LockedOutIsIdle` | src/controllers/auth.controller.ts:3431-3454 | nobody gets in while locked out, and nothing changes |
| `Recovery.GuessingIsBounded` | src/utils/recovery.ts:746-858 | any half hour sees at most five wrong backup, SMS and emailed codes together, plus five for each time the lockout was cleared in it |
| `RecoveryController.VerifyBackupCode` | src/utils/recovery.ts:170-249 | finds the first usable stored hash that verifies, and none exactly when there is none |
| `RecoveryController.NormalizeRecoveryMethods` | src/controllers/account.controller.ts:52-66 | the filtering loop into an insertion-ordered set computes the normal list |
| `RecoveryController.DistinctMethods` | src/controllers/account.controller.ts:166-182 | the loop behind `new Set` keeps the first of each name, unsupported ones included |
| `RecoveryController.FilterOut` | src/controllers/account.controller.ts:3202-3202 | the filter loop drops one method and keeps the order |
| `RecoveryController.Account.EnableBackupCodes` | src/controllers/account.controller.ts:2713-2990 | the handler, step by step, builds the record of the `Enable` step with the trimmed address; one without `@` is ignored, and one that the address check throws on leaves the record alone |
| `RecoveryController.Account.EnableSecondaryEmail` | src/controllers/account.controller.ts:2993-3050 | likewise for an address alone; one without `@`, or one that the check throws on, changes nothing |
| `RecoveryController.Account.DisableRecovery` | src/controllers/account.controller.ts:3197-3245 | filtering, deleting one field and resetting an empty record is the `DisableMethod` step |
| `RecoveryController.Account.RegenerateBackupCodes` | src/controllers/account.controller.ts:3501-3527 | the handler is the `RegenerateCodes` step, refused unless enabled |
| `RecoveryController.Account.SaveSecurityQuestions` | src/controllers/account.controller.ts:3905-3924 | the handler is the `SaveQuestions` step |
| `RecoveryController.Account.EnrolBackupCodes` | src/controllers/account.controller.ts:166-182 | building the record at MFA enrolment is the `EnrolCodes` step |
| `RecoveryController.Account.ProcessRecoveryBackupCodes` | src/controllers/auth.controller.ts:3397-3624 | recovers exactly when not locked out and a stored usable hash verifies, and then spends that hash |
| `WebAuthnChallenges.RunKeepsInv` | src/controllers/webauthn.controller.ts:88-128 | every run keeps: the stored challenge was issued and never handed over |
| `WebAuthnChallenges.ChallengesAreSingleUse` | src/controllers/webauthn.controller.ts:593-636 | each challenge handed to a verifier was issued in the session for that ceremony, it had not expired, and none is handed over twice (section 13.4.3 of Web Authentication Level 2) |
| `WebAuthnChallenges.HandedAfterIssue` | src/controllers/webauthn.controller.ts:593-636 | while the clock does not go back, it was issued before, and at most five minutes before |
| `WebAuthnChallenges.HandedIff` | src/controllers/webauthn.controller.ts:101-128 | a challenge is handed over exactly to a request of its ceremony within its time, and the slot is then empty |
| `WebAuthnChallenges.IssuedIsHanded` | src/controllers/webauthn.controller.ts:88-128 | a request of the right kind within 300000 milliseconds gets its own challenge verified |
| `WebAuthnController.Controller.IssueOptions` | src/controllers/webauthn.controller.ts:88-99 | stores the challenge with its expiry and kind |
| `WebAuthnController.Controller.GetChallenge` | src/controllers/webauthn.controller.ts:101-124 | removes an expired challenge, ignores one of the other kind |
| `WebAuthnController.Controller.HandleVerify` | src/controllers/webauthn.controller.ts:242-260 | hands over a usable challenge and clears the slot first |
| `CommentStripper.MarksAre` | scripts/build.js:125-125 | the marks of a comment, character by character |
| `CommentStripper.StripOnceDeletes` | scripts/build.js:125-125 | one global replacement is a sequence of deletions of complete comments, empty exactly when there is none |
| `CommentStripper.StripOnceStableIff` | scripts/build.js:123-126 | it changes nothing exactly when no complete comment is left, and shortens the text otherwise |
| `CommentStripper.OnceCanReveal` | scripts/build.js:119-126 | one replacement can reveal a new comment, so the loop is needed |
| `CommentStripper.StripComments` | scripts/build.js:121-126 | the loop ends; the result is a subsequence, differs only by deleted comments, has none left and is stable |
| `ClientSearch.NothingAboveVisited` | src/db/prisma.ts:80-94 | stopping at a visited directory loses no match |
| `ClientSearch.FirstStartDecides` | src/db/prisma.ts:77-79 | the first start with a match decides |
| `ClientSearch.FindPostgresqlPrismaClient` | src/db/prisma.ts:72-100 | the search with a shared visited set is the first match over all ancestors of the start, then of the fallback |

## Left out

- `ImportCycles.ListingDependsOnEdges`: the orders are parameters; the order of tied components, which the program leaves as its search found them, is not modelled.
- `ImportCycles.ListingUniqueIff`: speaks of the lists that the contract of the analysis allows; the program may still always return the same one of them.
- `ConfigManager.TenantEntryCurrentIff`: the values that `mergeConfig` and `createRuntimeConfig` compute are an arbitrary function.
- `ConfigBroadcast.QuietMeansAgreed`: updates, reloads and deliveries are atomic there, every message is delivered and every reload succeeds.
- `ComputedDefaults.ComputedFrame`: property names are constants of a datatype, so a path through a numeric array index is not modelled.
- `DeepMergeHeap.JsObject.MergeFrom`: one plain source object whose plain objects are acyclic and do not include the target; several sources are successive calls. What lies beyond an object held by reference is not looked into, by the program either.
- `SocialIntegrations.RunKeepsAccess`: passwords are never removed in the model; the handler that would remove one is not part of it.
- `LoginSession.EveryLoginIsExplained`: requests of one session are serialised and names of users do not change during it. Other code that signs in is not part of the model: the tier 1 completion route (src/routes/auth.ts:323), which makes no MFA test, and the interaction handlers under src/oidc (flows/handlers/login.ts:447, flows/handlers/social-callback.ts:435, flows/handlers/new-device-verify.ts:265, flows/middleware/oidc.middleware.ts:121, utils.ts:201-211).
- `Recovery.RunKeepsWellFormed`: SMS data may be present without the method, since sending a recovery SMS stores it for any user; whether an SMS code, emailed code or answer is right is a given answer, and security questions have a lockout of their own that is not modelled.
- `RecoveryController.Account.ProcessRecoveryBackupCodes`: expiry and format of codes are one given answer.
- `RecoveryController.Account.EnableBackupCodes`: lower-casing and the pattern of an address are a given function of the trimmed text.
- Parsing sources, collecting import specifiers and counting type escapes: the analysis starts from the graph.
- Trimming treats the ASCII white-space characters only.
- Precedence of bootstrap fields, `processObjectIds`, the administrator bootstrap script: they would only add easy members.
- A bound on linked providers over all paths: reactivation and `linkToUser` skip the limit.
- Cryptography, sessions on disk, databases, message transport, rendering, notifications and audit records.
