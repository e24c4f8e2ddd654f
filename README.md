# Pinned tabs: save and restore, modelled in Dafny

The extension's popup does two things:

- **Save** records the pinned tabs of the current window in one storage slot, `savedTabs`. Each tab's container is looked up and recorded with it.
- **Restore** brings the pinned tabs back. It takes these steps:
  - remove the current pinned tabs;
  - open one pinned tab per saved record, in stored order;
  - when a saved container no longer exists, report the container as missing and try to recreate it;
  - retry a failed tab once without any container;
  - report how many tabs came back and which containers were missing.

This project models that logic in `popup.js` and proves what it promises.

The browser is an abstract environment:

- **Container registry.** A lookup function, `lookup: string -> Lookup`. It answers found, not found, or threw, and does not change during one run.
- **Other call outcomes.** These are indexed by the saved tab's position:
  - `recreate(k)` is the new container's id, or nothing when the create threw;
  - `primaryOk(k)` and `fallbackOk(k)` say whether each `tabs.create` succeeded;
  - `removeOk` says whether the `tabs.remove` call succeeded.
- **Browser state.** `Popup.Browser` is a class with three fields:
  - `pinned`, the window's pinned tabs;
  - `storage`, the `savedTabs` slot;
  - `log`, every call that changes tabs or containers, oldest first.

  The call order is a property of the log. Examples: removal comes before the first create, and exactly one retry follows a failed create.

Modules:

- `Containers.dfy` covers the container lookup, the container recreation, the missing-name choice, and the colour and icon lookups.
- `Tabs.dfy` holds the live tabs and the saved records, the record extraction of a save, and the tabs that `tabs.create` opens.
- `Reconciler.dfy` holds the restore as a specification:
  - the per-tab functions are `MissingOf`, `CallsOf` and `Attempt`;
  - their fold over the saved tabs is `Reconcile`;
  - the lemmas state what a run adds up to.
- `Popup.dfy` holds the class `Browser`:
  - the browser calls are methods whose outcome is supplied;
  - `SavePinnedTabs` and `RestorePinnedTabs` are imperative methods;
  - the restore loop is proved equal to `Reconcile`.
- `Report.dfy` holds the toast text and style at the end of a save or a restore.

## Model

| member | source | states |
|---|---|---|
| Containers.GetContainerInfo | popup.js:19-49 | A missing, empty or `"firefox-default"` reference gives the fixed default record. Any other reference gives a record exactly when the registry finds the container. A thrown lookup gives nothing, the same as not found. A found record copies the container's name, colour, icon and icon URL, and is non-default. |
| Containers.RecreateRequest | popup.js:65-76 | A container is requested exactly when the saved record is present and not the default. The request copies the record's name, colour and icon. |
| Containers.RecreateContainer | popup.js:65-81 | Gives nothing, with no registry call, for an absent or default record. Otherwise gives what the registry's create returned: the new id, or nothing when it threw. |
| Containers.RecreateFromSavedInfo | popup.js:36-41 | A container found at save time is recreated with the name, colour and icon recorded then. |
| Containers.MissingName | popup.js:222 | The name listed for a missing container is never empty. It is the saved name when that is non-empty, otherwise `"Unknown"`. |
| Containers.GetContainerColor | popup.js:84-97 | The result is always a CSS hex colour. It is the mapped value for the nine known colours, and `#7c7c7d` for any other or absent colour. |
| Containers.GetContainerIcon | popup.js:100-103 | Gives nothing exactly when the icon is absent or empty. Otherwise gives a URL from which `IconName` reads back the icon, that is, prefix + icon + `.svg`. |
| Tabs.Records | popup.js:143-151 | One record per queried tab, in query order. Each record copies url, title, pinned, cookieStoreId, active and index. Each carries the container record looked up for its cookieStoreId, consistent with whether that reference is the default. |
| Tabs.OpenedTabs | popup.js:234-239 | The tabs opened into an empty pinned area: one per successful request, at positions 0, 1, 2 and so on, with the request's url, pinned flag, active flag and container. |
| Tabs.OpenedTabsAppend | popup.js:234-239 | Opening one more tab appends it at the next position. |
| Reconciler.TabsToRestore | popup.js:192-195 | There is something to restore exactly when a collection is stored, it has a tab list, and the list is non-empty. The tabs restored are the stored list. |
| Reconciler.ResolvedRef | popup.js:215-231 | A reference that resolves is passed on unchanged. Otherwise, the reference passed on is the recreated container's non-empty id, or nothing. |
| Reconciler.MissingOf | popup.js:218-222 | A saved tab adds at most one name, and adds one exactly when its reference does not resolve. That name is `MissingName` of its saved record. |
| Reconciler.CallsOf | popup.js:218-281 | The calls one saved tab makes, in order: at most one container create, then the first `tabs.create` with the resolved reference, then exactly one containerless retry when the first failed. A reference that resolves goes straight to `tabs.create`, with no container created. |
| Reconciler.Attempt | popup.js:234-281 | A tab opens exactly when the first or the retried `tabs.create` succeeds. Its url and active flag are the saved ones and it is pinned. A tab opened by the first create carries the resolved reference: the saved one, or the recreated container's id. A tab opened only by the retry is exactly the containerless fallback request. |
| Reconciler.MissingFold | popup.js:211-231 | After the loop has run over some saved tabs, `missingContainers` holds at most one name per tab. |
| Reconciler.CreatedFold | popup.js:209-283 | After the loop has run over some saved tabs, at most one tab has been opened per saved tab. |
| Reconciler.Reconcile | popup.js:213-283 | A run opens at most one tab and lists at most one missing name per saved tab. |
| Reconciler.Count | popup.js:240 | A count of successes never exceeds the number of tabs, and equals it exactly when every position succeeded. |
| Reconciler.CountSplit | popup.js:209-283 | Every position is counted either as a success or as a failure. |
| Reconciler.ReconcilePrefix | popup.js:213-283 | One more saved tab adds exactly its own missing names, calls and opened tab to the run so far. |
| Reconciler.MissingNamesAppend | popup.js:213-231 | The missing-name filter over two runs of tabs is the concatenation of the two filters. |
| Reconciler.MissingNamesEmpty | popup.js:218-222 | No name is listed exactly when every saved reference still resolves. |
| Reconciler.MissingInTabOrder | popup.js:213-231 | `missingContainers` is exactly the front-to-back filter of the saved tabs whose reference no longer resolves. That gives one name each, in tab order, with duplicates kept. |
| Reconciler.OpenedFromAppend | popup.js:213-283 | The front-to-back list of opened requests over two runs of tabs is the concatenation of the two lists, with positions continuing. |
| Reconciler.OpenedInStoredOrder | popup.js:213-283 | The tabs are opened in stored order. Each saved tab, at its own position, contributes the request that succeeded for it, or nothing. |
| Reconciler.CreatedArePinned | popup.js:234-275 | Every tab a restore opens is pinned. |
| Reconciler.CreatedUpTo | popup.js:209-283 | The number of tabs opened from the first n saved tabs is the number of those tabs with a successful first or retried create. |
| Reconciler.RestoredCount | popup.js:209-283 | `restoredCount` is at most the number of saved tabs. It equals that number exactly when every tab's first or retried create succeeded. It falls short by exactly the number of tabs whose two creates both failed. |
| Reconciler.AllResolvedRestoresAsSaved | popup.js:215-242 | When every reference resolves and every first create succeeds, nothing is missing and no container is created. The k-th opened tab is then the k-th saved tab with its saved reference. |
| Reconciler.EveryFirstCreateSucceeds | popup.js:234-240 | When every reference resolves and every first create succeeds, the k-th opened request is the k-th saved tab with its saved reference. |
| Reconciler.CreationsOfLastTab | popup.js:220-230 | One more saved tab adds a container creation to the run exactly when it does not resolve and its saved record asks for one. |
| Reconciler.RecreateMaskOfLastTab | popup.js:220-230 | One more saved tab adds one to the count of tabs needing a new container exactly when it needs one. |
| Reconciler.OneRecreationPerAffectedTab | popup.js:220-230 | The run asks the registry for one new container per saved tab that no longer resolves and carries a non-default record. This is one per affected tab, not one per deleted container. |
| Reconciler.StepContainerCreations | popup.js:223-225 | One saved tab creates a container exactly when it does not resolve and its saved record asks for one. |
| Reconciler.ContainerCreationsAppend | popup.js:223-225 | The container creations in two call logs are the concatenation of the creations in each. |
| Popup.Browser.TabsRemove | popup.js:203-206 | The removal is logged with the tabs it names. On success no pinned tab is left; on failure none is removed. Storage is untouched. |
| Popup.Browser.TabsCreate | popup.js:234-239 | The create is logged. On success the new tab is appended at the next position. |
| Popup.Browser.IdentitiesCreate | popup.js:72-76 | The container create is logged and returns the supplied outcome. Tabs and storage are untouched. |
| Popup.Browser.StorageSet | popup.js:161-163 | A successful write replaces the whole stored value. A failed one leaves it. |
| Popup.Browser.SavePinnedTabs | popup.js:130-163 | With no pinned tab, nothing is written and the stored collection is untouched. Otherwise the stored value becomes exactly `Records` of the pinned tabs with the given timestamp, or stays as it was when the write fails. No tab changes and no call is logged. |
| Popup.Browser.RestoreTab | popup.js:214-282 | One pass of the loop. It lists exactly `MissingOf` and opens a tab exactly when `Attempt` succeeds, appending it. It logs exactly `CallsOf`. |
| Popup.Browser.CreateSavedTabs | popup.js:209-283 | The loop's count, missing list, opened tabs and logged calls are exactly those of `Reconcile` over the saved tabs. |
| Popup.Browser.RestorePinnedTabs | popup.js:177-297 | With nothing stored, nothing changes. A failed removal abandons the restore before any create. Otherwise the removal is logged before every create, and the outcome is `Restored(count, total, missing)` from `Reconcile`. The pinned tabs are then exactly the opened ones, all pinned and in order. Storage is never changed. |
| Popup.RestoreTwice | popup.js:192-292 | Two restores in a row with no save between them, the browser answering both alike. When removal succeeds, both report the same outcome, so the same `restoredCount`. When removal fails and no tab was pinned at first, a first restore that opened tabs makes the second one abandon at the removal (popup.js:206, 293), so the two outcomes differ. |
| Popup.SaveThenRestore | popup.js:143-242 | Saving and then restoring, while every container resolves and every create succeeds, reopens the saved tabs one for one, in order, with their url, container and active flag. Nothing is listed missing. |
| Popup.DeletedContainerReportedByName | popup.js:220-237 | A container found at save time and deleted before the restore is listed under its saved name. The first call for that tab recreates it with its saved name, colour and icon. When the recreation gives an id and the first create succeeds, the tab opens in the new container. |
| Report.Decimal | popup.js:285 | A count is written as a non-empty string of digits with no leading zero, except for 0 itself. |
| Report.DecimalRoundTrip | popup.js:285 | Reading the written digits back gives the count. |
| Report.DecimalInjective | popup.js:285 | Different counts are written differently. |
| Report.JoinConcat | popup.js:287 | Joining two non-empty lists back to back gives the first list's join, one separator, then the second list's join. |
| Report.JoinLength | popup.js:287 | The length of a join is the total length of the names plus one separator per pair of neighbours. |
| Report.RestoreMessage | popup.js:285-288 | The message starts with the `Restored … of … pinned tab(s)` headline. It is longer than the headline exactly when some container is missing, and then continues with the missing names joined by `", "`. |
| Report.RestoreToast | popup.js:285-296 | The toast is a success exactly when every saved tab was restored. An empty slot and an abandoned restore each get their own error text. |
| Report.SaveToast | popup.js:135-172 | The toast is a success exactly when the collection was written. Each outcome gets its own text, and a success names the count. |
| Report.RestoreReportsSuccess | popup.js:285-292 | A restore that got past removal reports success exactly when every saved tab's first or retried create succeeded. It names missing containers exactly when some saved reference no longer resolved. |

## Left out

- `checkCookiesPermission` (popup.js:106-115): only shows a warning toast and never changes what happens.
- The DOM and timers are presentation only: `showMessage`, `updateDisplay`, the event wiring and the toast timeout.
- `console` logging and the classification of a failed create's error text (popup.js:245-269): these only log. Every failure is handled the same way.
- `Date.now()`: the timestamp is a parameter of `SavePinnedTabs`.
- A rejection of `storage.local.get` or `tabs.query` is not modelled. These inputs are the class's current state.
- A rejection of `storage.local.set` is modelled: the slot is left unchanged.
- `getContainerInfoForTabs` (popup.js:52-62) runs its lookups concurrently with `Promise.all`. It is modelled as the in-order map inside `Records`. The registry is a function, so the order of the lookups cannot matter.
- The registry does not change during a run.
  - A container recreated for one tab is not seen by a later tab's lookup, because `lookup` is fixed. Each affected tab asks for its own container, as the code does.
  - Modelling registry drift within one run would need a stateful registry.
- The browser's other tabs, the real `tabs.create` placement and the page title are not modelled. A new tab is modelled as appended to the pinned area with an empty title.
- Popup.Browser.TabsRemove: a failed `tabs.remove` is modelled as removing nothing. The browser may in fact have removed some of the tabs.
- `colorMap[color]` is a lookup in a JavaScript object, so inherited keys such as `"constructor"` can hit it. The model is a finite map over the nine listed colours.
- Three behaviours of `popup.js` that the model keeps as written:
  - **A thrown registry lookup** is treated exactly like a missing container (popup.js:43-48, 220-225). The name is listed and a recreate is attempted, because `getContainerInfo` returns `null` in both cases.
  - **A failed removal** of the current pinned tabs abandons the whole restore (popup.js:206, 293). The outer `catch` ends it before any tab is created.
  - **The container is recreated once per affected tab** (popup.js:220-225), so tabs that shared a deleted container each get a new container of their own (`Reconciler.OneRecreationPerAffectedTab`).
