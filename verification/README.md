# Settings: store, service and client

A Dafny model of a settings service and of the HTTP client other services read it through.
Each account is a sparse map from (profile, namespace, key) to a value, with a revision counter
and a capped change log. The service decides which changes are legal and turns catalogue, policy
and rows into documents. The client keeps those documents in a bounded cache, revalidates them by
entity tag, and falls back honestly when the service is away. The guarantees are about whole runs:
what a tag identifies, what the log tracks, what a restore restores, what a cached document is
worth.

`dafny verify dfyconfig.toml` checks everything.

## How it is laid out

| file | what it holds |
|---|---|
| `Core`, `Dicts`, `Json` | options and results, insertion-ordered dictionaries, parsed JSON |
| `SettingTypes`, `EntryRules`, `Catalogue` | what a setting is, which values it takes, the rules as they run, the checked table and its index |
| `Policies`, `PolicyAcceptance` | parsing a deployment's policy, and narrowing as refinement; which documents start a deployment and what they make of each entry |
| `Resolution` | catalogue, policy and rows into documents |
| `EntityTags` | printing, parsing and matching entity tags (section 8.8.3 and 13.1.2 of RFC 9110) |
| `Tables`, `EventLog`, `Store`, `Merge` | the three tables; append and trim, paging; the store's transactions; what they mean |
| `Service`, `Acceptance`, `Plans`, `SettingsService` | requests into changes; which documents are accepted; what reaches the store; the service object |
| `Requests`, `Admission`, `Refusals`, `Records` | what every request asks of the rows, which requests are served, what a refused one is told, what is written down |
| `Server`, `Runs`, `Legality`, `PolicyChanges`, `Sweeper` | the server as a state machine, and what holds over its runs |
| `Exports`, `RoundTrip` | export, and importing it again |
| `Database` | one worker, transactions statement by statement, waiters that leave |
| `ClientModels`, `ClientCache` | what a client reads, and its state between two awaits |
| `Replies` | what the server answers, what the client reads in an answer, what each answer becomes |
| `ClientProtocol`, `Freshness`, `FreshOrder`, `Forgetting`, `AskingAgain` | every interleaving of client tasks, answers, server steps and the clock |
| `Shortfalls` | inputs on which the service falls short of a promise, and a small deployment they occur on |

Operations that update state in place are class methods or loops, each proved equal to a function
of the old state; the properties are then lemmas about those functions. A *site* is one
deployment: its catalogue, its policy, its limits, and the library code the model does not open.
A *run* is any sequence of requests, erasures and sweeps. Time is a number the caller supplies.
Values are tagged, so `true` never equals `1`. Quantifiers range over every catalogue the
assembly accepts and every policy document the parser accepts.

## Where the code and its prose differ

The model follows the code.

- `forget` deletes the account row, so revisions start again at zero and tags repeat: two
  documents are served under one tag (`Shortfalls.ForgettingReusesTags`). Tags identify documents
  between forgets.
- The loop of `_apply_changes` compares with the rows read before it, so it equals a merge exactly
  when no row's last change restates the stored value after an earlier one moved it
  (`Merge.ApplyIsMergeExactlyWhen`). A version 2 import can name a row twice, by putting an
  account-scoped key in two places (`Plans.ImportNamesRowsOnceExactlyWhen`), and then leave the
  first value and not the second (`Shortfalls.AnImportGoesAwayAndBack`).
- A sweep logs one event for each row, not for each account, at the current revision
  (`Merge.SweepRecordsEachRow`).
- A contradictory policy is promised not to start. The parser accepts a minimum above the maximum
  and a negative list cap, and then no value is legal; exactly when is
  `Policies.AcceptedPolicyIsSatisfiableExactlyWhen`. It re-checks a default only when the policy
  gives one (`Policies.NarrowedDefaultIsLegalExactlyWhen`).
- Every malformed `If-Match` is promised a refusal. A revision with superscript digits, or of more
  than 4300 digits, passes `isdigit` and fails in `int`; exactly when is
  `EntityTags.PromiseBrokenExactlyWhen`.
- An account id that starts with a quote cannot use its own `If-Match` tag, and one that hides a
  lone `*` between commas matches every `If-None-Match` list (`EntityTags.OddAccounts`).
- The profile pattern allows names the schema's length limit refuses, and an accepted import can
  be refused there; exactly when is `Shortfalls.ImportNamesTooLongExactlyWhen` with
  `Shortfalls.RefusedForLengthExactlyWhen`.
- `KEY_PATTERN` is used with `match`, so a name and one trailing newline pass, and nothing else
  beyond lower snake case (`SettingTypes.AcceptedBeyondSnakeCase`).
- Rows stored before a policy narrowed a setting are returned as they are. They stay legal for the
  catalogue, and are legal now exactly when they stay inside the policy now in force
  (`PolicyChanges.ResolvedIsLegalNowExactlyWhen`).
- The client's `forget` promises that the next call asks again. A request already out can bring a
  document that is cached after it, and the next call is then served without asking. The promise
  holds exactly when no such request is out (`AskingAgain.ForgettingAsksAgainExactlyWhen`), and so
  whenever no lock of a key it covers is held, which the client can see. What one would want of it,
  that nothing older than the forget passes for fresh, is a weaker promise: only an older answer
  already on its way breaks it (`Forgetting.ForgettingInEveryRun`).

## Model

| member | source | states |
|---|---|---|
| Catalogue.Assemble | src/settings_api/domain/catalogue/__init__.py:138-170 | The build is refused if a namespace is claimed twice or an entry is misplaced, repeated or fails any of its own rules; otherwise the table is the modules as given, and checked |
| EntryRules.CheckEntry | src/settings_api/domain/types.py:410-421 | The eight rules in their order pass an entry if and only if it is well formed |
| EntryRules.Validate | src/settings_api/domain/types.py:387-408 | Null first, then the checks of the type in their order: a value passes if and only if it is legal |
| EntryRules.CheckStrList | src/settings_api/domain/types.py:490-501 | The loop over items and the count against the set: no list too long, no item too long, none repeated |
| SettingTypes.AcceptedBeyondSnakeCase | src/settings_api/domain/types.py:524-529 | Beyond lower snake case the name rules let through exactly such a name followed by one newline |
| Catalogue.SpellingNamesOneEntry | src/settings_api/domain/catalogue/__init__.py:179-182 | In a checked catalogue a dotted spelling belongs to one entry, whatever dots the asked-for name contains |
| Catalogue.IndexAgreesWithScan | src/settings_api/domain/registry.py:64-90 | Looking a setting up through the index finds an entry exactly when a scan of the namespace's live entries meets it |
| Catalogue.FoundExactlyWhen | src/settings_api/domain/registry.py:64-90 | A lookup answers with an entry if and only if the catalogue declares it in that namespace under that key and has not retired it, and blames the namespace if and only if there is none |
| SettingTypes.Validated | src/settings_api/domain/values.py:41-58 | A value passes exactly when its shape is legal, none of its strings looks like a credential and it fits the size, and then it is returned unaltered |
| Policies.Parse | src/settings_api/domain/policy.py:135-163 | The nested loops build what the document means, or its first refusal in document order; which documents those are, and what is built, the next rows say without it |
| PolicyAcceptance.StartsExactlyWhen | src/settings_api/domain/policy.py:135-210 | A document is accepted if and only if it is an object of known namespaces, of live settings, of the six clauses; bounds only what the operator may clamp, each in its shape, on its type and no wider; and every default and pin spells a value that the catalogue and all the clauses allow |
| PolicyAcceptance.SettingExactlyWhen | src/settings_api/domain/policy.py:152-161 | The same for one setting's clauses, whatever the policy holds already |
| PolicyAcceptance.PolicyReads | src/settings_api/domain/policy.py:213-303 | Field by field, each bound, the choices, the default and the pin of every entry are what its clauses write, and the catalogue's where none is written |
| Policies.ParseSettingsIn | src/settings_api/domain/policy.py:149-161 | The inner loop over one namespace's settings, from any policy built so far |
| Policies.NarrowTightens | src/settings_api/domain/policy.py:213-303 | A narrowed entry allows only what the original allows, keeps a non-empty duplicate-free subsequence of the choices, and changes nothing but bounds and default |
| Policies.NarrowAllowsExactly | src/settings_api/domain/policy.py:213-303 | It allows exactly the values that both the catalogue and the clauses allow: no clause is dropped and none takes more than it says |
| Policies.NarrowedDefaultIsLegalExactlyWhen | src/settings_api/domain/policy.py:213-231 | The narrowed default is legal if and only if the policy gives one or the catalogue's stays inside the new bounds |
| Policies.AcceptedDefaultIsLegalExactlyWhen | src/settings_api/domain/policy.py:135-163 | The same for every accepted document and every entry |
| Policies.AcceptedPolicyAllowsExactly | src/settings_api/domain/policy.py:135-163 | For every accepted document and entry: a value is legal here if and only if the catalogue allows it and it stays inside the document's clauses |
| Policies.NarrowedIsSatisfiableExactlyWhen | src/settings_api/domain/policy.py:213-303 | An accepted narrowing leaves a setting some legal value if and only if it is nullable, or its range in force is not empty and its list cap in force not negative |
| Policies.AcceptedPolicyIsSatisfiableExactlyWhen | src/settings_api/domain/policy.py:19-20 | A contradictory policy is promised not to start; every document the parser accepts starts, and a setting then has a legal value if and only if the document's clauses for it leave room |
| Policies.ContradictionsAreAccepted | src/settings_api/domain/policy.py:245-303 | Two narrowings that are accepted and leave nothing: a minimum above the maximum, a negative `max_items` |
| Shortfalls.AContradictionStarts | src/settings_api/domain/policy.py:135-163 | A whole policy document of that kind, parsed and accepted |
| Policies.PolicyOnlyNarrows | src/settings_api/domain/policy.py:135-163 | For every accepted document and every entry: what the deployment allows the catalogue allows, choices are a subsequence, every pin and every default given is legal for the narrowed entry, retired entries are untouched |
| Policies.PolicyIsTheDocument | src/settings_api/domain/policy.py:135-163 | The policy is the document, setting by setting: a named entry is narrowed by exactly its clauses and pinned to exactly its pin, every other entry is as the catalogue has it |
| Resolution.TheNamespaceWins | src/settings_api/domain/resolution.py:164-182 | Merging a namespace over `common` gives the namespace's entry on a shared key and leaves every other key |
| Resolution.DocumentDependsOnLive | src/settings_api/domain/resolution.py:105-182 | A served document is a function of the stored values of live settings alone |
| Server.DocumentHolds | src/settings_api/domain/resolution.py:150-182 | A document has a key exactly when the setting is live in the namespace or in `common`, resolved from the right one |
| EntityTags.PrintedTagIsReadBack | src/settings_api/api/dependencies.py:165-193 | A printed tag presented by an account reads back as its revision if and only if that account is the printed one less leading quotes and the revision has no more digits than `int` reads; any other account is refused |
| EntityTags.ReadExactlyWhen | src/settings_api/api/dependencies.py:165-193 | For every header, account and number: it is read as that revision if and only if it is not weak and names the account, a dot and the digits of that number, at most 4300 of them |
| EntityTags.StripTakesTheEnds | src/settings_api/api/dependencies.py:180-188 | What is read is the header less the blanks, and then the quotes, at its two ends and nowhere else |
| EntityTags.PromiseBrokenExactlyWhen | src/settings_api/api/dependencies.py:165-193 | For every header and account the promise of a revision or a refusal is broken if and only if the header is not weak and names the account and a revision of digits, either with a superscript among them or more than 4300 of them |
| EntityTags.TagBreaksPromiseExactlyWhen | src/settings_api/api/dependencies.py:180-193 | The same read off the revision text of a tag in the printed shape |
| EntityTags.SuperscriptIsNotRefused | src/settings_api/api/dependencies.py:191-193 | One such header: a superscript two |
| EntityTags.TooManyDigitsAreNotRefused | src/settings_api/api/dependencies.py:191-193 | Another: 4301 ones |
| EntityTags.TagsAreDistinct | src/settings_api/settings/store.py:108-114 | Distinct (account, revision) pairs print distinct tags |
| EntityTags.MatchesItsOwnRevision | src/settings_api/api/routers/internal.py:212-222 | Sending back an account's tag matches the current one if and only if the revisions agree and the id has no comma, or the id hides a wildcard |
| EntityTags.ListMatchesExactlyWhen | src/settings_api/api/routers/internal.py:212-222 | A list of texts names a tag if and only if one of them is a star or that tag with blanks around it |
| EntityTags.EveryHeaderIsAList | src/settings_api/api/routers/internal.py:212-222 | And every header is such a list, its pieces joined by commas |
| EntityTags.EmptyMatchesNothing | src/settings_api/api/routers/internal.py:212-222 | An empty `If-None-Match`, which a client sends when it was given no tag, is never answered 304 |
| EntityTags.OddAccounts | src/settings_api/api/dependencies.py:180-193 | Concrete ids that break both rules: one with `*` between commas, one with a leading quote |
| EventLog.AppendIn | src/settings_api/events/sql_log.py:75-108 | The two statements, on a table in order: the account's log becomes the newest `cap` of its old events and the new one, nobody else's log moves, and the table stays in order |
| EventLog.TrimKeepsNewest | src/settings_api/events/sql_log.py:51-63 | Deleting up to the sequence found by the OFFSET subselect keeps exactly the newest `cap` events of the account |
| EventLog.AppendKeepsNewest | src/settings_api/events/sql_log.py:90-108 | An account's log becomes the last `cap` of its old log and the new event, no other account's log changes, sequences stay strictly increasing |
| EventLog.DeleteForAccountIn | src/settings_api/events/sql_log.py:110-114 | Nothing of the account's log is left, all of everybody else's is, and the number returned is how much shorter the table became |
| EventLog.ErasedForgets | src/settings_api/events/sql_log.py:110-114 | The account's log is then empty and every other account's is as it was |
| EventLog.PageAt | src/settings_api/events/sql_log.py:116-131 | A page reads the log backwards from the cursor, up to the limit |
| EventLog.CursorExactlyWhen | src/settings_api/api/routers/settings.py:190-192 | A page has a cursor if and only if a whole page of events was there below the last one, and it is the sequence of the page's oldest |
| EventLog.PagingFalls | src/settings_api/api/routers/settings.py:164-192 | Following cursors, with appends and trims between pages, sequences seen strictly fall |
| EventLog.PagingIsComplete | src/settings_api/api/routers/settings.py:164-192 | A reader that has stopped has seen every event that was there at each of its requests |
| EventLog.PagingStops | src/settings_api/api/routers/settings.py:164-192 | A walk that starts without a cursor stops, whatever happens to the log meanwhile, within a bound known at its start |
| EventLog.PagingAFixedLog | src/settings_api/api/routers/settings.py:164-192 | On a log that stands still the walk is the whole log newest first, each event once, and it stops |
| Store.SqlSettingsStore.Apply | src/settings_api/settings/sql_store.py:90-142 | The statements of `apply` leave the tables and the result of one transaction, and every refusal leaves the tables as they were |
| Store.SqlSettingsStore.ApplyChanges | src/settings_api/settings/sql_store.py:272-321 | The loop's writes and its report, change by change against the snapshot |
| Store.SqlSettingsStore.Forget | src/settings_api/settings/sql_store.py:144-163 | Removes the account's rows, account row and events, and counts the rows |
| Store.SqlSettingsStore.PurgeSetting | src/settings_api/settings/sql_store.py:165-202 | Removes every account's rows for one key and logs each, in whatever order the query lists them |
| Merge.RowsAfterApply | src/settings_api/settings/sql_store.py:272-321 | After a commit each row holds what the last differing change to it asked, and a row none differs on keeps value and provenance |
| Merge.ApplyIsMergeExactlyWhen | src/settings_api/settings/sql_store.py:286-318 | The snapshot loop is the sequential map merge if and only if no row's last change restates the stored value after an earlier one moved it |
| Merge.RepeatIsNoOpExactlyWhen | src/settings_api/settings/sql_store.py:121-126 | Repeating a committed write commits, records and reports nothing if and only if its changes to each row agree |
| Merge.OneChangeEachMerges | src/settings_api/settings/sql_store.py:286-318 | Naming each row once is enough for both |
| Merge.AwayAndBack | src/settings_api/settings/sql_store.py:301-305 | One row changed away and back in one write: the row is left away where a merge leaves it as it was, the same write again brings it back, and each moves the revision |
| Shortfalls.AnImportGoesAwayAndBack | src/settings_api/settings/service.py:369-373 | The version 2 import whose accepted plan is that write, and what it leaves when sent once and twice |
| Shortfalls.LevelGoesAwayAndBack | src/settings_api/settings/service.py:369-373 | A concrete import of that kind |
| Merge.ReportIsTheDifference | src/settings_api/settings/sql_store.py:288-321 | The report lists exactly the names of rows that differ afterwards |
| Merge.LogAfterApply | src/settings_api/settings/sql_store.py:121-140 | The revision rises by one if and only if something changed, with exactly one event carrying it; otherwise rows, log and counter are untouched |
| Merge.RefusedExactlyWhen | src/settings_api/settings/sql_store.py:102-119 | The writes that raise, exactly: a stale expectation, too many profiles, or a profile name the schema refuses; none commits anything |
| Merge.OtherRowsAfterApply | src/settings_api/settings/sql_store.py:55-68 | No other account's rows move |
| Merge.OtherLogsAfterApply | src/settings_api/settings/sql_store.py:127-139 | No other account's revision or log moves |
| Merge.CapStillHolds | src/settings_api/settings/sql_store.py:250-266 | Profile names after a commit were all counted before it ran |
| Merge.SweepRecordsEachRow | src/settings_api/settings/sql_store.py:183-201 | A sweep appends exactly one event for each removed row, at its account's unchanged revision, under the cap |
| Service.SortedEntries | src/settings_api/settings/service.py:543-553 | Sorts a document's entries into known and unknown, or stops at the first section the caller may not touch |
| Service.ChangesFor | src/settings_api/settings/service.py:529-562 | The change builder's order of refusals: sections, all unknown keys, a missing profile, then each value |
| Service.SplitLegacyDocument | src/settings_api/settings/service.py:564-584 | Splits a version 1 document by scope |
| Service.ImportChanges | src/settings_api/settings/service.py:340-373 | Both import versions build the list of changes the specification gives |
| Service.NormaliseProfile | src/settings_api/settings/service.py:642-652 | Whatever profile gets through has the pattern's shape and is the one given |
| Service.StoredFor | src/settings_api/settings/service.py:586-603 | Whatever order the rows are listed in, each key has one source row, in the column its scope says |
| Acceptance.AcceptedExactlyWhen | src/settings_api/settings/service.py:510-562 | A document is accepted if and only if every section is known and granted and every entry is live, writable, valid and has a profile where it needs one |
| Acceptance.UnknownSettingsAreToldTogether | src/settings_api/settings/service.py:543-557 | Unknown keys are refused before any profile or value is looked at, all of them at once and nothing else |
| Plans.DocumentBecomesItsEntries | src/settings_api/settings/service.py:529-562 | An accepted document becomes exactly one sanctioned change for each entry, in order, with its value unaltered |
| Plans.ImportBecomesItsItems | src/settings_api/settings/service.py:369-373 | An accepted version 2 import becomes exactly one sanctioned change for each of its items |
| Plans.ImportNamesRowsOnceExactlyWhen | src/settings_api/settings/service.py:369-373 | It names each row once if and only if no account-scoped key occurs twice in it |
| Plans.UpdateNamesRowsOnce | src/settings_api/settings/service.py:336-338 | An update names each row once |
| Plans.LegacyImportMeans | src/settings_api/settings/service.py:360-368 | A version 1 import keeps every choice: one change for each, in the account's column or the fallback profile's by scope, and no other |
| Plans.LegacyImportNamesRowsOnce | src/settings_api/settings/service.py:360-368 | And it names each row once |
| Plans.PlannedChangesAreSanctioned | src/settings_api/settings/service.py:278-437 | Every change of every accepted request, resets included, is to a live, granted, writable setting, in its scope's column, with a value its narrowed entry allows |
| Requests.PlannedExactlyWhenAsked | src/settings_api/settings/service.py:278-437 | Every accepted request becomes exactly the changes it asks for: each setting it names in the column of the profile it names, with the value it gives or gone, and nothing else |
| Requests.RowsAreAsAsked | src/settings_api/settings/service.py:278-437 | After any accepted request every row of every account is as asked: gone where it is cleared, holding a value asked for where one is, else unmoved with its provenance |
| Requests.MostAreOfOneMind | src/settings_api/settings/service.py:360-368 | Sets, updates and version 1 imports ask each row for one value, which it then holds |
| Requests.ResetsClear | src/settings_api/settings/service.py:375-437 | After an accepted reset a row is gone if and only if it is the account's, of a live setting, in the column of the profile named or the account's when none is, and for a whole namespace of that scope and the caller's to write |
| Admission.ProfileTakenExactlyWhen | src/settings_api/settings/service.py:642-652 | No name is no profile; any other is taken as it is if and only if it matches the pattern from end to end |
| Admission.TakenExactlyWhenItFits | src/settings_api/settings/service.py:278-437 | The service takes a request of any kind if and only if its profiles match the pattern, its namespaces exist and are granted, and its settings are live, the caller's to write and allow the values |
| Admission.ServedExactlyWhen | src/settings_api/settings/sql_store.py:102-142 | A request is served if and only if it also expects the revision there is, keeps the account within thirty-two profile names unless it only resets, and writes under none of more than sixty-four characters; else it is told the first that fails and nothing has moved |
| Refusals.SetsAreTold | src/settings_api/settings/service.py:278-304 | A refused set is told, in this order: the profile's shape, no such namespace, not granted, no such setting, pinned, not the owner, the value's shape, a credential, its size, a missing profile |
| Refusals.ResetsAreTold | src/settings_api/settings/service.py:375-398 | A refused reset likewise, without a value |
| Refusals.NamespaceResetsAreTold | src/settings_api/settings/service.py:421-422 | A reset of a namespace is refused for the profile's shape or the namespace only |
| Refusals.UpdatesAreTold | src/settings_api/settings/service.py:306-338 | An update is told of its profile's shape, then of the first section refused, before anything inside a section |
| Refusals.ImportsAreTold | src/settings_api/settings/service.py:340-373 | An import is told of its version, then likewise |
| Refusals.DocumentsAreTold | src/settings_api/settings/service.py:529-562 | With every section granted and every setting live, a missing profile is told before any value, and then the first entry there is something against |
| Records.RequestsAreRecorded | src/settings_api/settings/sql_store.py:102-142 | An accepted request leaves at most one event, which says its kind, who, when, the next revision and the settings whose rows differ; the account's row moves with it, and nothing of any other account moves |
| Records.NothingIsLeft | src/settings_api/settings/sql_store.py:144-163 | An erasure leaves no row, no account and no event of that account, and everything of every other |
| SettingsServices.SettingsService.SetSetting | src/settings_api/settings/service.py:278-304 | One request, one transaction or one refusal before it |
| SettingsServices.SettingsService.Update | src/settings_api/settings/service.py:306-338 | The same, for a document |
| SettingsServices.SettingsService.ImportDocument | src/settings_api/settings/service.py:340-373 | The same, for an import of either version |
| SettingsServices.SettingsService.ResetSetting | src/settings_api/settings/service.py:375-398 | The same, for one reset |
| SettingsServices.SettingsService.ResetNamespace | src/settings_api/settings/service.py:400-437 | The same, for a namespace; which rows go is `Requests.ResetsClear` |
| SettingsServices.SettingsService.Forget | src/settings_api/settings/service.py:439-448 | Erases the account as one step of the server |
| SettingsServices.SettingsService.Resolve | src/settings_api/settings/service.py:219-233 | Serves the document the state machine says, from rows listed in any order |
| SettingsServices.SettingsService.ExportAccount | src/settings_api/settings/service.py:235-267 | Exports what the rows, listed in some order, say |
| Server.SameRowsSameDocuments | src/settings_api/settings/service.py:219-233 | Tables that agree on an account's live rows and revision serve it the same documents under the same tag |
| Runs.RowsRevisionAndLogAgree | src/settings_api/settings/sql_store.py:102-202 | Over all runs: a stored row implies an account at revision one or more, the newest event carries the revision, sequences strictly increase, retained events that are not sweeps have consecutive revisions |
| Runs.LogsStayCapped | src/settings_api/events/sql_log.py:90-108 | Over all runs no account's log is longer than the deployment's cap |
| Runs.RevisionCountsChanges | src/settings_api/settings/sql_store.py:121-142 | Over all runs the revision is the number of changing requests since the account was last forgotten |
| Runs.RevisionNamesLiveRows | src/settings_api/settings/sql_store.py:102-202 | Without a forget the revision never falls, and while it stands still the live rows do |
| Runs.EqualRevisionsServeEqualDocuments | src/settings_api/settings/store.py:108-114 | Entity tags are sound: between forgets, equal revisions mean identical documents for every namespace, profile and caller |
| Runs.SameExpectationNeedsForget | src/settings_api/settings/sql_store.py:103-111 | Two changing requests that succeed against one expected revision have a forget between them |
| Shortfalls.ForgettingReusesTags | src/settings_api/settings/sql_store.py:155-161 | Two different values, one set before a forget and one after, are served in different documents under one tag |
| Shortfalls.OneTagForTwoLevels | src/settings_api/settings/sql_store.py:155-161 | A concrete run of that kind |
| Legality.RowsStayOk | src/settings_api/settings/service.py:655-665 | Over all runs account-scoped settings have rows only under `*`, profile-scoped ones only under profile names, and every row of a live setting holds a legal value |
| Legality.ProfilesStayBounded | src/settings_api/settings/sql_store.py:250-266 | Over all runs no account has rows under more than 32 profile names |
| Shortfalls.RefusedForLengthExactlyWhen | src/settings_api/storage/schema.sql:30 | An accepted request is refused by the schema's length limit if and only if nothing earlier refuses it and it has a value for a profile name over that limit |
| Shortfalls.ImportNamesTooLongExactlyWhen | src/settings_api/settings/service.py:369-373 | For an accepted version 2 import: if and only if some profile-scoped setting sits under such a name |
| Shortfalls.ALongNameIsRefused | src/settings_api/settings/service.py:369-373 | A concrete import under a name of sixty-five letters, accepted by the service and refused by the schema |
| Legality.DocumentsTell | src/settings_api/domain/resolution.py:105-182 | A served document says of each key's setting its definition here, whether it is pinned, whether the account set it, and the pin, else the account's one row, else the default here, with its source; and has no other key |
| Legality.ServedCarries | src/settings_api/settings/service.py:219-233 | It carries the account's revision and the tag of account, dot and that revision |
| Legality.EveryValueIsLegalExactlyWhen | src/settings_api/domain/resolution.py:128-147 | With legal rows a setting resolves to a legal value for everybody if and only if it is pinned or its effective default is legal |
| Legality.EveryResolvedValueIsLegal | src/settings_api/domain/resolution.py:105-147 | After any run under one policy every resolved value is one its effective definition, and so the catalogue, allows, wherever the effective default is |
| PolicyChanges.RowsStayInBuild | src/settings_api/settings/service.py:510-527 | Through any changes of policy every stored value of a live setting stays one the catalogue allows, in the column its scope says |
| PolicyChanges.ResolvedIsLegalNowExactlyWhen | src/settings_api/domain/resolution.py:128-135 | After any run through any policies, what a setting resolves to is legal under the one now in force if and only if it is pinned, or the row stored stays inside its clauses, or nothing is stored and the default does |
| Exports.ExportAll | src/settings_api/settings/service.py:235-267 | The loop over rows listed in any order, or a raise at a granted row of a missing namespace |
| Exports.ExportHolds | src/settings_api/settings/service.py:240-259 | An export holds exactly the granted, live, correctly scoped rows, each under its own column |
| Exports.ExportFailsExactlyWhen | src/settings_api/settings/service.py:247-250 | It fails if and only if it meets a granted row of a namespace this build lacks |
| RoundTrip.RestoreIntoEmpty | src/settings_api/settings/service.py:235-373 | Importing an export into an account with no rows succeeds if and only if the importer may write each exported row, and then recreates exactly those rows |
| RoundTrip.RestoreIntoItself | src/settings_api/settings/service.py:235-373 | Importing an export into its own account changes no row, logs nothing and moves no revision |
| RoundTrip.RestoredDocumentsAreTheSame | src/settings_api/settings/service.py:235-373 | The restored account resolves every granted namespace under every profile as the exported one did, by itself and, where `common` is granted, merged over it as a service is served it |
| RoundTrip.RunsAreExportable | src/settings_api/settings/service.py:235-267 | After any run from empty tables an account meets all that the round trip asks of it, and its export succeeds |
| Sweeper.RetiredRowsSurvive | src/settings_api/settings/sweeper.py:57-86 | Through any requests, sweeps and changes of catalogue and policy, a retired key's rows stay exactly as they were unless the account is forgotten or a sweep runs past the window |
| Sweeper.RevertingRestores | src/settings_api/domain/registry.py:64-90 | Reverting a retirement in time restores what the setting resolved to under every profile |
| Sweeper.RequestsLeaveRetiredRows | src/settings_api/settings/service.py:420-434 | No request of any kind writes or resets a retired key |
| Sweeper.SweepOnce | src/settings_api/settings/sweeper.py:57-93 | A row stays, as it was, if and only if no entry of its name was retired on a day that the window after it ends before today; the count is of all others; and the sweep is a run of single ones |
| Database.InTransaction | src/settings_api/storage/database.py:290-301 | Statement after statement, then COMMIT or ROLLBACK, leaves what the transaction is as one function |
| Database.LeavesItsEffect | src/settings_api/storage/database.py:203-217 | Every transaction ends, and what it leaves is its effect and nothing in between |
| Database.CommittedIsSerial | src/settings_api/storage/database.py:193-217 | Whoever submits, cancels and waits, the committed tables are what whole transactions, a subsequence in submission order, leave one by one; nobody who waits is lost |
| Database.CancelAbandons | src/settings_api/storage/database.py:193-201 | Cancelling a queued job takes it out of the queue |
| Database.AbandonedStays | src/settings_api/storage/database.py:193-201 | And it never runs afterwards |
| Database.SerialIsARun | src/settings_api/storage/database.py:203-217 | So every reachable committed state is one the server's runs reach |
| Database.SameExpectationOnTheWorker | src/settings_api/settings/sql_store.py:103-111 | Optimistic concurrency holds statement by statement: two changing writes that succeed against one revision have a forget between them |
| ClientModels.RenderedIsReadBack | clients/python/settings_client/client.py:485-549 | A served document is read as exactly what was served: values, defaults, outage rules and revision |
| ClientModels.OutagesAreHonest | clients/python/settings_client/models.py:69-101 | In an outage document each declared key is its default or refused, never both or neither, no other key is there, and a refused key cannot be read by subscript or by naming a default |
| ClientModels.RulesIgnoreRows | src/settings_api/api/routers/internal.py:195-209 | Outage rules are the same whoever a document was resolved for |
| Freshness.DeploymentRulesAre | src/settings_api/api/routers/internal.py:195-209 | They are the deployment's: for each key the default and outage rule of the entry as its policy has it, the namespace's own or else `common`'s, and none for any other key |
| ClientCache.RememberRefines | clients/python/settings_client/client.py:451-461 | Storing keeps the bound, keeps the new entry, and evicts the entry whose last store or fast-path hit is oldest |
| ClientCache.TouchRefines | clients/python/settings_client/client.py:463-471 | A fast-path hit makes its entry the most recent and moves nothing else |
| ClientCache.ForgetRefines | clients/python/settings_client/client.py:297-310 | Forgetting drops all it names and keeps the order of the rest |
| ClientCache.TheDictionaryIsABoundedRecencyCache | clients/python/settings_client/client.py:445-471 | After any sequence of these the dictionary holds exactly what a cache that evicts by time of last use would |
| ClientCache.HttpSettingsClient.Remember | clients/python/settings_client/client.py:451-461 | The pop, the insertion and the eviction loop |
| ClientCache.HttpSettingsClient.Touch | clients/python/settings_client/client.py:463-471 | The pop and the insertion |
| ClientCache.HttpSettingsClient.Forget | clients/python/settings_client/client.py:297-310 | Lists the keys, then deletes them: an entry goes if and only if its token is the one named and so is its namespace, if one is named |
| ClientCache.HttpSettingsClient.SetAnswered | clients/python/settings_client/client.py:265-295 | A lost write is unknown and a refused one told, and neither drops anything; any other drops every profile's entry of its namespace, and is saved if and only if the body carries an integer revision |
| ClientCache.HttpSettingsClient.Arrive | clients/python/settings_client/client.py:216-223 | The fast path, or one more caller on the key's lock |
| ClientCache.HttpSettingsClient.Store | clients/python/settings_client/client.py:377-399 | Caches the document and learns the namespace's fallbacks |
| ClientCache.HttpSettingsClient.Receive | clients/python/settings_client/client.py:334-375 | A result passed off as fresh is held as of now, and with any other nothing is learned; in an outage the copy held is served stale, before what the rules learned make, before nothing |
| Replies.EveryDelivery | clients/python/settings_client/client.py:334-443 | In every run each answer becomes just this: a 304 confirms the copy held, a 4xx is told, a usable document is kept with its tag and its rules, and a lost, failing or unusable answer gives the copy held with only `stale` changed, else the document of the rules learned, else nothing, and teaches nothing |
| Replies.UsableExactlyWhen | clients/python/settings_client/client.py:485-549 | A body is read as a document if and only if it is an object with those settings, an integer revision, and for each declared key a default and one of the two rules in words |
| Replies.NeverUnavailableOnceLearned | clients/python/settings_client/client.py:401-443 | In every run, once a namespace's document was received nobody is told that nothing is known about it |
| Replies.ServedAtOnceExactlyWhen | clients/python/settings_client/client.py:216-233 | In every run a caller is served without asking, on arrival or under the lock, if and only if an entry of its key was confirmed less than the time to live ago; on arrival that entry becomes the last in line, under the lock nothing moves |
| Replies.DroppedExactlyWhen | clients/python/settings_client/client.py:286-310 | In every run a forget, and a write that was neither lost nor refused, drop exactly the entries of that token and namespace, whatever the write's body says |
| Replies.AskedExactly | src/settings_api/api/routers/internal.py:108-140 | What the server answers any request: 401, 422, 404 and 403 before 304, a 304 if and only if the header names the account's current tag, else the whole document under that tag |
| Replies.UnchangedIsNotSentAgain | clients/python/settings_client/client.py:334-341 | A request carries the tag of the copy held, and while that is still the account's tag it is answered 304 |
| Replies.DocumentsReadAsTold | clients/python/settings_client/models.py:69-101 | What the server has for a key reads, setting by setting, as the account is told it, whatever default the reader names; other keys are missing; and it carries the revision and the deployment's rules |
| ClientProtocol.SingleFlight | clients/python/settings_client/client.py:222-242 | In every reachable state: a key has a lock exactly while some task is inside, the lock counts them, they share it, at most one fetches, and with nobody inside the table is empty |
| Freshness.NotModifiedMeansSame | src/settings_api/api/routers/internal.py:116-136 | A 304 means the document of the tagged state and of the answering state are the same |
| Freshness.RefusedCallersAreTold | clients/python/settings_client/client.py:356-363 | When the server's answer is a refusal the caller is told so, even where an older document is cached, and the cache stays as it was |
| Freshness.FreshAnswersAreTheServers | clients/python/settings_client/client.py:187-242 | Over every interleaving, an answer not marked stale is the server's document for that token, namespace and profile at a moment between the sending and the receipt of the request that last confirmed it, received now or less than the time to live ago |
| FreshOrder.FreshAnswersNeverGoBack | clients/python/settings_client/client.py:222-242 | Over every interleaving, for one token, namespace and profile, a fresh answer given after another is of the same server state or a later one |
| Freshness.AnswersAreOnesOwn | clients/python/settings_client/client.py:215-220 | Every answer with a revision, stale or not, is what the server had for exactly the token, namespace and profile asked for, forgets included |
| Freshness.OutageAnswersFollowTheRules | clients/python/settings_client/client.py:401-443 | In every run an answer without a revision reads each key as the entry says that this deployment's policy makes of it, its default or a refusal, and has no other key, even for a token never seen before |
| AskingAgain.ForgettingAsksAgainExactlyWhen | clients/python/settings_client/client.py:119-126 | In every run, after a forget or a write's drop the next call for a covered key asks again, whatever happens, if and only if the client caches nothing at all, or no request out for the key then holds or may yet be given a document to store; and so whenever no covered key's lock is held |
| AskingAgain.AsksAgainExactlyWhen | clients/python/settings_client/client.py:216-233 | The same from any reachable state with nothing cached for a key |
| AskingAgain.FirstRequestExactlyWhen | clients/python/settings_client/client.py:334-341 | An unanswered first request may yet be given such a document if and only if the server serves the key at all |
| Forgetting.ForgettingHoldsExactlyWhen | clients/python/settings_client/client.py:286-310 | A weaker promise of a forget or write, that no continuation ever passes off anything older as fresh, holds if and only if no helpful answer of an older server state is on its way at that moment |
| Forgetting.ForgettingInEveryRun | clients/python/settings_client/client.py:286-310 | The same at every such step of every run; and it holds whenever the client's own table shows nobody waiting or fetching for what is dropped |
| Forgetting.ForgettingMayBreak | clients/python/settings_client/client.py:286-310 | The client's state can promise no more: while a covered request is unanswered, steps it cannot see lead to a world with the same client in which its forget breaks the promise |
| Forgetting.AnAnswerOnItsWayUndoesForgetting | clients/python/settings_client/client.py:377-399 | A late usable document is cached again, and the next caller is served it without asking |

## Left out

- HTTP plumbing, schemas, problem bodies, middleware and URL building; a namespace that needs escaping in a URL is not modelled.
- Token verification: a token maps to an account, its namespaces and its service by a fixed function.
- SQLite's own behaviour, the write-ahead log, checkpoints and bytes on disk; tables are maps and sequences with the stated meaning of the SQL, and integers are unbounded.
- Regular expressions of settings, time zone lookup, the credential detector and the JSON encoder's byte count: parameters of the model, whatever they answer.
- JSON text: parsed values stand for it, so what a value becomes through encoding and decoding is not captured; values are compared with their tags.
- The origin, labels and documentation of an entry, which no rule reads; what counts as an ISO date is a parameter.
- The settings of the shipped catalogue: the results hold for every checked one.
- The order in which a query lists rows without ORDER BY: any order.
- Non-Latin text in headers.
- Redaction and logging, configuration, closing of the database and of the client, and the client's negative cache bound.
- Fairness of the client's locks: any waiting task may get a free lock, which allows more runs than the original has.
- The effect of a client's write on the server is any step of the server; its reply is any reply, and what the caller is told of it is `HttpSettingsClient.SetAnswered`.
- Proxies may lose answers, drop entity tags, or answer with failures and unusable bodies; one that forges a usable document or a 304 is outside the freshness result.
- Store.SqlSettingsStore.PurgeSetting: takes the listing of affected rows as an argument, because the query's order is not promised.
- Freshness.FreshAnswersAreTheServers: asks that the account is not forgotten in the run and its id hides no wildcard between commas, because tags repeat or match everything there.
