# pal: the action catalogue, its run bookkeeping and its store, in Dafny

pal is a small server that runs configured shell or container "actions" on
HTTP request or on a schedule. It keeps a catalogue of the actions, grouped by
name. For each action it records the run state: last run, outputs, a short
run history, and trigger links between actions. Each action also has a lock
flag, meant to keep a non-concurrent action to one run at a time, which the
store does not keep. It also keeps a list of notifications and user
records, all in an embedded key-value store.

This project models the sequential core of that bookkeeping:

- `Data` (data.dfy): the records of data/data.go, and the first-by-name lookup
  the server uses everywhere.
- `Utils` (utils.dfy): the helpers of utils/utils.go. These are the lookups and
  selectors, the field-by-field refresh of an action (`updateAction`) and the
  duration format (`fmtDuration`).
- `Merge` (merge.dfy): `MergeGroups`, which reconciles the stored catalogue
  with freshly loaded definitions. It is written as the nested loops of the
  source and proved against a specification function.
- `Db` (db.dfy): the keyed store of db/db.go as a class over a map from keys
  to values. It has two reserved keys, one for the notification list and one
  for the group table. Values are stored as JSON. The model keeps what that
  encoding loses: an action's lock flag is never written, and `Get` decodes
  whatever is stored as a record. Every method states the store's whole new
  state.
  `KeyOrder` (keyorder.dfy) is the byte-wise key order the store lists keys in.
- `Routes` (routes.dfy): `addRun`, `mergeGroup`, `lock`, `putNotifications`,
  the notification-delete filter, the `$PAL_*` placeholder expansion,
  `registerActionDB`, `cmdString` and the download file-name check of
  routes/routes.go.
- `Gate` (rungroup.dfy): the part of `RunGroup` that decides, before any
  command runs, how a request is answered. That covers authentication as an
  input, stored-output requests, the disabled flag, input resolution and
  validation, and the lock of non-concurrent actions. Since the store drops
  the lock flag, that lock never refuses a request as written.
- `Reload` (reload.dfy): `ReloadActions`. Loaded definitions get their group
  and an initial run history. Every success or error rule whose target exists
  is recorded as a `Triggers` link on both of its ends. The result is merged
  into the stored catalogue.
- `Text` (text.dfy): the few Go `strings`/`fmt` functions the code relies on
  (`Contains`, `ReplaceAll`, `TrimSpace`, `%d`, `Join`).
- `Wrappers` (wrappers.dfy): `Option`, `Result`, `Outcome`.

Where the Go code walks a map, its order is not fixed. The model either shows
that the order does not matter (`MergeGroups`, whose passes touch each group
on its own) or states the result for whichever order was taken
(`ReloadActions`, which returns its walk and is shown to append the same
records in any walk).

## Model

| member | source | states |
|---|---|---|
| Data.FirstNamed | utils/utils.go:120-128 | the index found holds the name and no earlier entry does; there is none exactly when no action has the name |
| Data.FirstNamedAt | utils/utils.go:121-125 | an index holding the name with no earlier holder is the one the first-match scan finds |
| Utils.HasAction | utils/utils.go:120-128 | found exactly when some action has the name; then the action is the first of that name, otherwise Go's zero ActionData |
| Utils.GetAuthHeader | utils/utils.go:131-137 | the flag is true exactly when the auth header is non-empty, and the header comes back unchanged |
| Utils.GetCmd | utils/utils.go:140-146 | an error exactly when the command is empty, with the source's message; otherwise the command |
| Utils.GetLastOutput | utils/utils.go:231-236 | the last success's output exactly when the status is "success", the last failure's otherwise |
| Utils.UpdateAction | utils/utils.go:209-229 | the result has the sixteen definition fields of the new action and the name, untouched fields and run state of the old one, and is the only action that does |
| Utils.UpdateActionOverwrite | utils/utils.go:209-229 | refreshing twice is refreshing once with the later definition |
| Utils.FmtDuration | utils/utils.go:238-262 | the text always ends with a seconds part |
| Utils.FmtDurationLayout | utils/utils.go:238-262 | for s ≥ 0: the days, hours-of-day and minutes-of-hour parts, each only when non-zero and in that order, then the seconds-of-minute part, "0s" when zero |
| Utils.FmtDurationUnderMinute | utils/utils.go:238-262 | under a minute the text is just the seconds, so 0 gives "0s" |
| Utils.FmtDurationNegative | utils/utils.go:238-262 | a negative count gives "0s" |
| Utils.FmtDurationRoundTrip | utils/utils.go:238-262 | reading the text back (d=86400, h=3600, m=60, s=1) gives the original number of seconds |
| Merge.MergeGroupActions | utils/utils.go:150-166 | the first pass over a group in both tables: each old action refreshed from the new ones, then the new actions the old list lacks, in order |
| Merge.FindOld | utils/utils.go:154-161 | found exactly when an old action has the name, and then at the first such index |
| Merge.MergeStep | utils/utils.go:152-166 | one new action refreshes the first old action of its name, or is appended when the old list lacks the name |
| Merge.KeepListedActions | utils/utils.go:174-199 | the second pass over a group: exactly the old actions whose names the new group lists, in order |
| Merge.Listed | utils/utils.go:180-186 | found exactly when the new group has an action of the name |
| Merge.RefreshGroups | utils/utils.go:149-171 | the whole first pass equals its specification function, group by group |
| Merge.PruneGroups | utils/utils.go:173-204 | the whole second pass: groups the new table lacks are dropped, the others pruned |
| Merge.MergeGroups | utils/utils.go:148-207 | the result's groups are exactly the new table's, and every action in it has a name the new group lists |
| Merge.MergedNewGroup | utils/utils.go:167-170 | a group the old table lacks is taken over exactly as loaded |
| Merge.MergedLayout | utils/utils.go:148-207 | a group in both tables is its surviving old actions, refreshed, in old order, followed by the actions only the new list has |
| Merge.MergedRefreshed | utils/utils.go:152-161 | an action named in both tables appears as the first old one of that name, refreshed from the last new one |
| Merge.MergedProvenance | utils/utils.go:148-207 | nothing is invented: each merged action is a new one as loaded, or carries the run state of an old action of its group |
| Merge.MergedHistoryWithin | utils/utils.go:148-207 | a bound on run-history length that holds in both tables holds in the merged one |
| Db.Lookup | db/db.go:79-103 | a missing key and the notification list fail; a stored record comes back as stored; the group table decodes as the zero record, unless a group name equals "key", "value" or "secret" ignoring ASCII case, and then it fails |
| Db.EncodedUnlockedSame | data/data.go:95 | a table without locks is stored as it is (each stored action differs from the action only in the lock flag, so a table read back holds no locked action) |
| Db.EncodedUpdate | db/db.go:320-328 | storing one group of a lock-free table changes only that group, to its encoding |
| Db.EncodedFirstNamed | data/data.go:95 | the stored form keeps names, so the first action of a name is at the same index |
| Db.EncodedHistoryWithin | data/data.go:96 | the stored form keeps every run history |
| Db.StoredUnlocked | data/data.go:95 | the group table of a valid store holds no locked action |
| Db.Store.Get | db/db.go:79-103 | returns the lookup of the key in the current contents |
| Db.Store.Put | db/db.go:188-213 | refuses exactly the two reserved keys, the empty key and keys with Badger's "!badger!" prefix, and then changes nothing; otherwise stores the record, so a lookup gives it back |
| Db.Store.Delete | db/db.go:342-356 | the key is gone afterwards, so a lookup fails; exactly the empty key and keys with Badger's prefix are an error, and those are never stored |
| Db.Store.GetNotifications | db/db.go:105-142 | the stored list as is for the empty group, otherwise its notifications of that group in order (the intended filter) |
| Db.OfGroup | db/db.go:133-139 | (intended) the filter keeps exactly the notifications of the group; the loop as written is `Db.FilterInPlaceAsWritten` |
| Db.Store.PutNotifications | db/db.go:144-164 | the notification list becomes the given one; nothing else changes |
| Db.Store.DeleteNotifications | db/db.go:166-186 | the notification list becomes empty; nothing else changes |
| Db.Store.GetGroups | db/db.go:236-258 | the stored table, empty when there is none |
| Db.Store.PutGroups | db/db.go:215-234 | the group table becomes the given one as encoded: every action kept with its lock cleared; nothing else changes |
| Db.Store.GetGroupActions | db/db.go:260-283 | the group's actions, none for an unknown group |
| Db.Store.GetGroupAction | db/db.go:285-318 | the first action of the group with the name, Go's zero ActionData when there is none |
| Db.Store.PutGroupActions | db/db.go:320-328 | the group maps to the given actions with their locks cleared, and every other group is unchanged |
| Db.Store.PutGroupAction | db/db.go:330-340 | every action of the group with the same name is overwritten by the given action with its lock cleared; all other actions, groups and keys unchanged |
| Db.ReplaceNamed | db/db.go:333-337 | same length; exactly the entries with the name are replaced |
| Db.HasRestrictedPrefix | db/db.go:370-375 | true exactly when the key starts with one of the reserved keys |
| Db.Store.Dump | db/db.go:358-398 | the visible records in ascending key order |
| Db.DumpHidesRestricted | db/db.go:358-398 | no listed record's key starts with a reserved key, and each listed record is stored under its key |
| Db.DumpShowsVisible | db/db.go:358-398 | every stored record whose key starts with no reserved key is listed |
| Db.DumpAscending | db/db.go:366-388 | the records come in strictly ascending key order |
| Db.PrefixHiddenButStorable | db/db.go:188-193 | "pal_groups_x" is hidden by the prefix test yet accepted by the exact-match test of Put |
| Db.RemoveInPlace | db/db.go:136 | removing an entry of a slice in place shifts the later entries of its length down by one over the same backing array |
| Db.FilterInPlaceAsWritten | db/db.go:133-139 | the group filter as written, on the backing array, equals its step-by-step specification |
| Db.AsWrittenKeepsOtherGroup | db/db.go:133-139 | as written, [g1, g1, g2] filtered for g2 keeps a g1 notification; the intended filter gives [g2] |
| Db.AsWrittenPanics | db/db.go:133-139 | as written, [g1, g1] filtered for g2 slices past the end; the intended filter gives [] |
| Routes.AddRun | routes/routes.go:1605-1621 | the latest run goes in front, followed by the previous history in order; the oldest entry goes only when the limit is exceeded; nothing else changes |
| Routes.AddRunBounded | routes/routes.go:1614-1618 | a history of at most 5 stays at most 5; a full one becomes the new run and its first four |
| Routes.MergeTarget | routes/routes.go:1589-1591 | a target exists only within the action's group |
| Routes.AfterMerge | routes/routes.go:1585-1603 | the table keeps its groups; every other group is unchanged; the action's group keeps its length; an unknown group or action leaves the table unchanged |
| Routes.AfterMergeRecordsRun | routes/routes.go:1585-1603 | only the first same-named action of the action's group changes, to the action with its run recorded; every other entry and group is unchanged |
| Routes.AfterMergeHistoryWithin | routes/routes.go:1585-1621 | recording runs keeps every history within 5 entries, in the table and in its stored form |
| Routes.MergeGroup | routes/routes.go:1585-1603 | stores the table with the run recorded, as encoded, when there is a target; otherwise the store is unchanged |
| Routes.LockedCopy | routes/routes.go:96-102 | the first action of the name with its lock set, or the zero action with the lock set |
| Routes.Lock | routes/routes.go:96-102 | the group is written back with every action of that name overwritten by the locked copy, whose lock the encoding then clears; all other keys are unchanged |
| Routes.LockSetsFlag | routes/routes.go:96-102 | in the list `lock` hands to `PutGroupAction`, the flag is set on the first occurrence of a known action, which stays the first of its name; other names are untouched |
| Routes.LockStateNotStored | routes/routes.go:96-102 | locking and unlocking store the same list: the lock state never reaches the store |
| Routes.LockUnknownAction | routes/routes.go:96-102 | locking an unknown action changes nothing when no action has the empty name |
| Routes.GetConfigInt | config/config.go:214-221 | the setting, or 0 when it is unset |
| Routes.PushNotificationAsWritten | routes/routes.go:1623-1636 | as written: the stamped notification goes in front; when the list is over the limit the rest is the stored list less its element 0, otherwise the whole stored list; the empty list over a negative limit panics |
| Routes.PushNotification | routes/routes.go:1623-1636 | (intended; as written is `Routes.PushNotificationAsWritten`) the stamped notification is in front, then the stored list in order, less its oldest entry when it is longer than the limit |
| Routes.PushNotificationBounded | routes/routes.go:1626-1633 | a list of at most limit+1 stays that short, keeping the newest entries |
| Routes.AsWrittenDropsNewest | routes/routes.go:1626-1627 | as written, the cut removes the newest stored notification instead of the oldest |
| Routes.AsWrittenLimitIsZero | routes/routes.go:1626 | with the loader of config/config.go:165-170, the limit read is 0 whatever is configured, so a put keeps only the new notification |
| Routes.LoadedLimit | routes/routes.go:1626 | with a loader that stores the configured maximum under the key read, the limit is that maximum, 100 by default, and a full list keeps its length on a put |
| Routes.AsWrittenPanicsOnEmpty | routes/routes.go:1626-1627 | with a negative limit the cut as written would slice an empty list; the corrected put stores the one notification |
| Routes.PutNotification | routes/routes.go:1623-1636 | the notification list becomes the corrected push of the new notification onto it, with the limit read from "notifications_store_max"; nothing else changes |
| Routes.WithoutId | routes/routes.go:580-585 | exactly the notifications whose identifier differs, never more than before |
| Routes.WithoutIdSnoc | routes/routes.go:581-585 | the filter takes the list one notification at a time, in order |
| Routes.WithoutIdAbsent | routes/routes.go:581-585 | an identifier no notification has removes nothing |
| Routes.WithoutIdUnique | routes/routes.go:581-585 | with unique identifiers, deleting a present one removes exactly one notification |
| Routes.KeepOthers | routes/routes.go:581-585 | the loop keeps exactly the notifications with other identifiers, in order |
| Routes.DeleteNotification | routes/routes.go:580-592 | an empty identifier writes nothing; otherwise the list loses exactly that identifier's notifications |
| Routes.NoPlaceholder | routes/routes.go:829-843 | a text without "$PAL_" holds none of the five placeholders |
| Routes.Expand | routes/routes.go:829-843 | a template without `$PAL_` is left as it is (and the output takes part only for an action that keeps its output) |
| Routes.ReplaceWhole | routes/routes.go:829 | a text that is exactly the pattern becomes the replacement |
| Routes.ExpandIn | routes/routes.go:829-843 | each of the five placeholders inside a template becomes the group, action, input, status or output it stands for (the output only for an action that keeps its output), with the text around it unchanged, when the result holds no `$PAL_` |
| Routes.ExpandKeepsOutput | routes/routes.go:833-835 | for an action that keeps no output, "$PAL_OUTPUT" stays in the text as it is |
| Text.ReplaceAllSplit | routes/routes.go:829-842 | replacing every occurrence of a pattern in x + pattern + y gives the replaced x, the replacement, then the replaced y, when the pattern first occurs at that place |
| Routes.Registered | routes/routes.go:824-855 | no record exactly when the key template is empty; the secret is copied; templates without placeholders are stored as configured |
| Routes.RegisterActionDB | routes/routes.go:824-855 | writes the expanded record through Put; nothing is written for an empty key template or a refused key |
| Routes.CmdString | routes/routes.go:1749-1765 | the action's command comes last: quoted for a container, after a space otherwise |
| Routes.CmdStringSudo | routes/routes.go:1752-1758 | a containerised command line starts with "sudo " exactly when the container asks for sudo |
| Routes.CmdStringExportsFirst | routes/routes.go:1760-1761 | a plain command line starts with the export of the upload directory |
| Routes.EnvCarriesInput | routes/routes.go:1757 | the container options contain the text `-e PAL_INPUT='<input>'` |
| Routes.RunCarriesInput | routes/routes.go:1758 | the container invocation contains the text `-e PAL_INPUT='<input>'` |
| Routes.ContainerCarriesInput | routes/routes.go:1752-1758 | a containerised command line contains the text `-e PAL_INPUT='<input>'` |
| Routes.ExportsCarryInput | routes/routes.go:1759-1761 | a plain command line contains the text `export PAL_INPUT='<input>';` |
| Routes.DownloadPath | routes/routes.go:1324-1328 | a path exactly for a safe name, joined under the upload directory; otherwise the error with the name |
| Routes.SafeFileNameChars | routes/routes.go:1324 | a name is safe exactly when it has no '/' or '\\' character and no two adjacent dots |
| Gate.ResolveInput | routes/routes.go:241-257 | the resolved input neither starts nor ends with white space |
| Gate.BlankInputNotReplaced | routes/routes.go:253-257 | a request input of white space only resolves to empty, since the default applies only before trimming |
| Gate.Decide | routes/routes.go:151-275 | an empty group name is answered 400 "error group invalid"; otherwise an empty or unknown action name is answered 400 "error invalid action"; a run starts only for a named group and a known action |
| Gate.StartRequires | routes/routes.go:151-278 | a run goes ahead only for a non-empty group and a known, enabled, authenticated, unlocked-or-concurrent action with valid input; it runs the first action of the name with the resolved input and its command line |
| Gate.RefusedWhenLocked | routes/routes.go:271-278 | once the earlier checks pass, 429 comes exactly when the action is non-concurrent and locked, and the run goes ahead exactly otherwise |
| Gate.SecondRunRefused | routes/routes.go:271-278 | the intended lock: once a non-concurrent action is let through and its flag is set in the list the gate reads, the same request gets 429 |
| Gate.NeverNotReady | routes/routes.go:271-274 | as written, on any valid store a request is never answered 429 "error not ready", since stored actions hold no lock |
| Gate.UnlockedNotRefused | routes/routes.go:271-274 | an action whose flag is clear is never answered 429 "error not ready" |
| Gate.AsWrittenSecondRunStarts | routes/routes.go:271-278 | as written, after a non-concurrent run is let through and `lock` has stored its group, the same request is answered exactly as the first, so a second run starts |
| Gate.CheckAction | routes/routes.go:189-275 | the checks on a known action, in order, answer as the specification does |
| Gate.RunGroup | routes/routes.go:151-278 | answers as specified for the stored actions; when a non-concurrent run goes ahead, stores the group as `lock` writes it, adds no key but the group table's and leaves every other key as it was; writes nothing otherwise |
| Reload.PrepareGroups | routes/routes.go:1876-1893 | the first loop gives every action its group's name and replaces an empty history by five empty runs |
| Reload.LastIndexNamed | routes/routes.go:1878-1892 | the index keeps the last action of each name; there is none exactly when no action has the name |
| Reload.Indexed | routes/routes.go:1897 | a key resolves only to an action of that name in that group |
| Reload.IndexOfSnoc | routes/routes.go:1891 | adding an action to a group's index points its name at it |
| Reload.IndexOfLast | routes/routes.go:1891 | a group's index holds exactly the group's names, each sent to the last action of that name |
| Reload.IndexGroup | routes/routes.go:1878-1892 | the inner loop builds exactly the group's index |
| Reload.BuildIndex | routes/routes.go:1875-1893 | the built index is exactly the last position of every name of every group |
| Reload.ProcessRule | routes/routes.go:1896-1915 | a rule with an indexed target appends the record to the origin and then the target; one without changes nothing |
| Reload.ProcessTriggerRules | routes/routes.go:1895-1916 | the rules are processed in order |
| Reload.ProcessEntry | routes/routes.go:1919-1922 | the success rules, then the error rules, of one index entry |
| Reload.AddTriggers | routes/routes.go:1918-1923 | the walk visits every entry of the index exactly once, and the table is the prepared one with the walk's records appended |
| Reload.ApplyForm | routes/routes.go:1913-1914 | after the appends every action is as it was but for its triggers, which gain the records appended at its position, in order |
| Reload.ContributionMember | routes/routes.go:1913-1914 | a record is among an action's new triggers exactly when it was appended there |
| Reload.EmittedSound | routes/routes.go:1895-1923 | every appended record names an indexed origin, a condition "success" or "error", a rule of the origin for that condition and an indexed target, and sits on the origin or the target; unknown targets add nothing |
| Reload.EmittedComplete | routes/routes.go:1895-1923 | every rule of a walked entry whose target is indexed puts the same record on both the origin and the target |
| Reload.OrderIndependent | routes/routes.go:1918-1923 | any two walks give each action the same records the same number of times; only their order differs |
| Reload.ReloadedAction | routes/routes.go:1876-1923 | each reloaded action is the loaded one with its group's name, five empty runs if it had no history, and the appended records after its own triggers |
| Reload.ReloadedHistoryWithin | routes/routes.go:1881-1890 | histories within 5 stay within 5 through a reload |
| Reload.ReloadActions | routes/routes.go:1874-1927 | the store's table becomes the merge of the stored one with the reloaded definitions, for the walk taken, as encoded; nothing else changes |
| Reload.ReloadKeepsHistoryBound | routes/routes.go:1925-1926 | after a reload every history is within 5, in the merged table and in its stored form, given the stored and loaded ones were |

## Left out

- I/O and time: running commands (`CmdRun`), the clock (`TimeNow`), UUIDs and
  secrets, files, sessions and basic auth. The clock value and the identifier
  are parameters of the notification put. The result of authentication is a
  parameter of the gate. `validateInput` and `requestJSON` are parameters.
- Concurrency: the goroutines that run actions in the background, retries,
  cron tasks, chained on-success/on-error runs and their input expansion,
  `runBackground`, and the release of the lock when a run ends. The gate stops
  at the point where the command would start.
- Webhooks, response headers, HTTP plumbing, and the error when a POST body
  cannot be read.
- The store is a map from keys to values. Badger's key-size limits,
  transactions and I/O errors are not modelled. Badger's own entries under
  "!badger!" keys are not modelled: `Get` of such a key fails in the model.
- The JSON encoding is modelled only where it loses something: the lock flag
  is dropped, and a stored value is decoded as a record by `Get`. A value
  under a reserved key that does not decode is not modelled.
- Db.Lookup: matches group names to the record's fields ignoring ASCII case
  only. Go's decoder also folds the Kelvin sign and the long s, which is not
  modelled. A group stored as `null` would decode into any field; the model
  takes every group as a list.
- Utils.FmtDuration: models non-negative whole seconds with integer division.
  It does not model the overflow of `time.Duration` for huge counts or the
  floating point of `Hours()`/`Minutes()`.
- Text.ReplaceAll: models only non-empty patterns, the only ones the code
  uses.
- Go's distinction between a nil and an empty slice, which shows in JSON as
  `null` against `[]`, is not modelled.
- Merge.KeepListedActions: leaves out the copy of the group without an
  unlisted action that the source builds and stores (utils/utils.go:187-197).
  The finished list replaces that copy at line 199.
- Merge.MergeGroups: returns a new table. It does not model that the Go code
  mutates the stored map in place, or that slices share backing arrays.
- Reload.ReloadActions: returns a new table. It does not model the in-place
  mutation of the caller's `groups` through references into its slices. An error
  from storing the table is not modelled.
- Routes.PutNotification: models the corrected put, which gives up the oldest
  entry (see Findings). It reads the limit from the key the source reads. The
  as-written put is modelled by `PushNotificationAsWritten`.
- Routes.LockSetsFlag: states the flag only in the list `lock` hands to
  `PutGroupAction`. The stored table never holds it (see Findings).
- Routes.ContainerCarriesInput: states the command line as text. Shell
  quoting is not modelled, so an input holding a single quote ends the quoted
  value early.
- Routes.ExportsCarryInput: states the command line as text. Shell quoting is
  not modelled, so an input holding a single quote ends the quoted value
  early.
- Db.Store.GetNotifications: models the intended group filter. The
  as-written loop is modelled by `FilterInPlaceAsWritten` (see Findings).
- Db.OfGroup: states the intended filter, not the loop at db/db.go:133-139,
  which skips entries and can panic (see Findings).
- Routes.PushNotification: states the intended put, not the cut of element 0
  at routes/routes.go:1626-1627 (see Findings).
- Config loading (YAML, the concurrent settings map) is not part of this
  model, except for the one integer setting the notification limit is read
  from. That setting is a map argument, and two loaders of it are compared
  in Findings.

## Findings

| source | as written | input that shows it | evidently intended | confidence | as-written member | corrected member |
|---|---|---|---|---|---|---|
| db/db.go:133-139 | removes entries from the slice it is ranging over, so the entry after each removed one is never examined and the index runs past the shrunken slice | notifications of groups [g1, g1, g2] filtered for g2 returns [g1, g2]; [g1, g1] filtered for g2 panics | the notifications of the requested group only | high, not executed | Db.FilterInPlaceAsWritten (shown by Db.AsWrittenKeepsOtherGroup and Db.AsWrittenPanics) | Db.Store.GetNotifications (Db.OfGroup) |
| routes/routes.go:1626-1627 | when the list is over the limit it cuts element 0, but the list is kept newest first (the new one is prepended at line 1633), so the newest stored notification is lost | stored [b, a] with b newest and a limit of 1: the result is [new, a] | give up the oldest (last) entry, as `addRun` does for run histories | medium, not executed | Routes.PushNotificationAsWritten (shown by Routes.AsWrittenDropsNewest) | Routes.PushNotification (Routes.PushNotificationBounded) |
| routes/routes.go:1626 | reads the setting "notifications_store_max". The loader shipped with the code (config/config.go:165-170) sets only "notifications_max", from a `Notifications.Max` field that data/data.go:139 does not declare (it declares `StoreMax`), so that loader comes from another revision. An unset integer setting reads as 0 (config/config.go:214-221) | with that loader, any configured maximum and one stored notification: the put keeps only the new one | a loader that stores the configured `store_max` under "notifications_store_max", 100 by default | low, not executed: the loader and the structs come from different revisions | Routes.AsWrittenLimitIsZero (on Routes.ShippedLoaderConfig) | Routes.LoadedConfig (Routes.LoadedLimit), read by Routes.PutNotification through Routes.StoreLimit |
| routes/routes.go:271-278 | `lock` (lines 96-102) sets the flag and stores the action, but `Lock` is tagged `json:"-"` (data/data.go:95), so the store never holds it and the check at line 272 always reads false | two requests for the same non-concurrent action, the second while the first still runs: both are let through | the second request gets 429 "error not ready" until the first run ends | high, not executed | Gate.AsWrittenSecondRunStarts (with Gate.NeverNotReady and Routes.LockStateNotStored) | Gate.SecondRunRefused |
