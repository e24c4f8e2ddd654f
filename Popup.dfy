/**
 * The popup's save and restore operations, run against the browser's state: the pinned
 * tabs of the current window, the one storage slot "savedTabs", and the log of calls that
 * change tabs or containers. The browser APIs are methods whose outcome is supplied by the
 * caller; the popup's own logic is the body of SavePinnedTabs and RestorePinnedTabs.
 */
module Popup {
  import opened Wrappers
  import opened Containers
  import opened Tabs
  import opened Reconciler

  datatype SaveOutcome = NoPinnedTabs | Saved(count: nat) | SaveFailed

  class Browser {
    /** The pinned tabs of the current window, left to right (what tabs.query returns). */
    var pinned: seq<Tab>
    /** The value under the storage key "savedTabs", if any. */
    var storage: Option<Collection>
    /** Every call that changed tabs or containers, oldest first. */
    var log: seq<Call>

    /** Every listed tab is pinned and sits at its own position. */
    ghost predicate PinnedInPlace()
      reads this
    {
      forall i :: 0 <= i < |pinned| ==> pinned[i].pinned && pinned[i].index == i
    }

    /** tabs.remove on all pinned tabs; when it fails, no tab is removed. */
    method TabsRemove(ok: bool) returns (removed: bool)
      modifies this
      ensures removed == ok
      ensures pinned == (if ok then [] else old(pinned))
      ensures log == old(log) + [RemoveCall(old(pinned))]
      ensures storage == old(storage)
    {
      log := log + [RemoveCall(pinned)];
      if ok {
        pinned := [];
      }
      removed := ok;
    }

    /** tabs.create; on success the new tab is appended to the pinned tabs. */
    method TabsCreate(request: CreateRequest, ok: bool) returns (created: bool)
      modifies this
      ensures created == ok
      ensures pinned == (if ok then old(pinned) + [OpenedTab(request, |old(pinned)|)] else old(pinned))
      ensures log == old(log) + [TabCreateCall(request)]
      ensures storage == old(storage)
    {
      log := log + [TabCreateCall(request)];
      if ok {
        pinned := pinned + [OpenedTab(request, |pinned|)];
      }
      created := ok;
    }

    /** contextualIdentities.create; `outcome` is the new container's id, None when the call threw. */
    method IdentitiesCreate(spec: ContainerSpec, outcome: Option<string>) returns (id: Option<string>)
      modifies this
      ensures id == outcome
      ensures log == old(log) + [IdentityCreateCall(spec)]
      ensures pinned == old(pinned) && storage == old(storage)
    {
      log := log + [IdentityCreateCall(spec)];
      id := outcome;
    }

    /** storage.local.set of the "savedTabs" key: the whole value is replaced. */
    method StorageSet(collection: Collection, ok: bool) returns (stored: bool)
      modifies this
      ensures stored == ok
      ensures storage == (if ok then Some(collection) else old(storage))
      ensures pinned == old(pinned) && log == old(log)
    {
      if ok {
        storage := Some(collection);
      }
      stored := ok;
    }

    /**
     * savePinnedTabs: with no pinned tab nothing is written; otherwise the whole stored
     * value becomes one record per pinned tab, in order, stamped with `now`. `lookup`
     * answers the container lookups; `setOk` is whether the storage write succeeds.
     */
    method SavePinnedTabs(lookup: string -> Lookup, now: int, setOk: bool) returns (outcome: SaveOutcome)
      modifies this
      ensures pinned == old(pinned) && log == old(log)
      ensures old(pinned) == [] ==> outcome == NoPinnedTabs
      ensures old(pinned) != [] ==> outcome == (if setOk then Saved(|old(pinned)|) else SaveFailed)
      ensures storage == (if old(pinned) != [] && setOk
                          then Some(Collection(Some(Records(old(pinned), lookup)), now))
                          else old(storage))
    {
      var tabs := pinned;
      if |tabs| == 0 {
        return NoPinnedTabs;
      }
      var collection := Collection(Some(Records(tabs, lookup)), now);
      var stored := StorageSet(collection, setOk);
      outcome := if stored then Saved(|tabs|) else SaveFailed;
    }

    /**
     * One pass of restorePinnedTabs' loop, for saved tab `tab` at position k: keep a
     * reference that resolves, otherwise report the container missing and try to recreate
     * it; then create the tab, retrying once without a container. Returns whether a tab
     * was opened and the names to add to missingContainers.
     */
    method RestoreTab(tab: SavedTab, k: nat, env: Env) returns (restored: bool, missing: seq<string>)
      modifies this
      ensures missing == MissingOf(tab, env.lookup)
      ensures restored == Attempt(tab, k, env).Some?
      ensures pinned == old(pinned) + (if restored then [OpenedTab(Attempt(tab, k, env).value, |old(pinned)|)] else [])
      ensures log == old(log) + CallsOf(tab, k, env)
      ensures storage == old(storage)
    {
      missing := [];
      var cookieStoreId := tab.cookieStoreId;
      if !IsDefaultRef(cookieStoreId) {
        var currentContainer := GetContainerInfo(cookieStoreId, env.lookup);
        if currentContainer.None? {
          missing := [MissingName(tab.containerInfo)];
          var request := RecreateRequest(tab.containerInfo);
          var newCookieStoreId := None;
          if request.Some? {
            newCookieStoreId := IdentitiesCreate(request.value, env.recreate(k));
          }
          cookieStoreId := if Truthy(newCookieStoreId) then newCookieStoreId else None;
        }
      }
      assert cookieStoreId == ResolvedRef(tab, k, env);
      restored := TabsCreate(CreateRequest(tab.url, true, Passed(cookieStoreId), tab.active), env.primaryOk(k));
      if !restored {
        restored := TabsCreate(CreateRequest(tab.url, true, Omitted, tab.active), env.fallbackOk(k));
      }
    }

    /**
     * restorePinnedTabs: nothing happens when no tabs are stored; otherwise every pinned
     * tab is removed first, then each saved tab is restored in stored order as `Reconcile`
     * describes, and the pinned tabs are exactly the ones opened. A failed removal abandons
     * the restore before any tab is created.
     */
    method RestorePinnedTabs(env: Env) returns (outcome: RestoreOutcome)
      modifies this
      ensures storage == old(storage)
      ensures TabsToRestore(old(storage)).None? ==>
                outcome == NothingToRestore && pinned == old(pinned) && log == old(log)
      ensures TabsToRestore(old(storage)).Some? && old(pinned) != [] && !env.removeOk ==>
                outcome == RestoreFailed && pinned == old(pinned) && log == old(log) + [RemoveCall(old(pinned))]
      ensures TabsToRestore(old(storage)).Some? && (old(pinned) == [] || env.removeOk) ==>
                var tabs := TabsToRestore(old(storage)).value;
                var s := Reconcile(tabs, env);
                && outcome == Restored(|s.created|, |tabs|, s.missing)
                && pinned == OpenedTabs(s.created)
                && log == old(log) + (if old(pinned) == [] then [] else [RemoveCall(old(pinned))]) + s.calls
                && PinnedInPlace()
    {
      var stored := storage;
      if stored.None? || stored.value.tabs.None? || |stored.value.tabs.value| == 0 {
        return NothingToRestore;
      }
      var tabs := stored.value.tabs.value;

      var current := pinned;
      if |current| > 0 {
        var removed := TabsRemove(env.removeOk);
        if !removed {
          return RestoreFailed;
        }
      }

      var restoredCount, missingContainers := CreateSavedTabs(tabs, env);
      CreatedArePinned(tabs, env);
      outcome := Restored(restoredCount, |tabs|, missingContainers);
    }

    /**
     * The loop of restorePinnedTabs, once the pinned tabs are gone: every saved tab in
     * stored order, counting the tabs opened and collecting the missing container names.
     */
    method CreateSavedTabs(tabs: seq<SavedTab>, env: Env) returns (restoredCount: nat, missingContainers: seq<string>)
      requires pinned == []
      modifies this
      ensures var s := Reconcile(tabs, env);
              && restoredCount == |s.created|
              && missingContainers == s.missing
              && pinned == OpenedTabs(s.created)
              && log == old(log) + s.calls
      ensures storage == old(storage)
    {
      restoredCount, missingContainers := 0, [];
      ghost var done := Summary([], [], []);
      for i := 0 to |tabs|
        invariant done == Reconcile(tabs[..i], env)
        invariant storage == old(storage)
        invariant restoredCount == |done.created|
        invariant missingContainers == done.missing
        invariant pinned == OpenedTabs(done.created)
        invariant log == old(log) + done.calls
      {
        ReconcilePrefix(tabs, env, i);
        var restored, missing := RestoreTab(tabs[i], i, env);
        missingContainers := missingContainers + missing;
        ghost var attempt := Attempt(tabs[i], i, env);
        if restored {
          restoredCount := restoredCount + 1;
          OpenedTabsAppend(done.created, attempt.value);
        }
        AppendAssoc(old(log), done.calls, CallsOf(tabs[i], i, env));
        done := Summary(done.missing + missing, done.calls + CallsOf(tabs[i], i, env), done.created + OptionToSeq(attempt));
      }
      assert tabs[..|tabs|] == tabs;
    }
  }

  /**
   * Two restores in a row with no save between them, the browser answering both alike. When
   * removal succeeds, the second reports exactly what the first did. When removal fails and the
   * window started with no pinned tab, a first restore that opened any tab makes the second
   * one fail: it must remove those tabs, and the failed removal abandons it.
   */
  method RestoreTwice(b: Browser, env: Env) returns (first: RestoreOutcome, second: RestoreOutcome)
    modifies b
    ensures env.removeOk ==> first == second
    ensures !env.removeOk && old(b.pinned) == [] && first.Restored? && first.restoredCount > 0 ==>
              second == RestoreFailed
  {
    first := b.RestorePinnedTabs(env);
    second := b.RestorePinnedTabs(env);
  }

  /** A restored tab reopens a saved live tab: same url, container, active flag and place, pinned. */
  predicate Reopens(restored: Tab, saved: Tab, k: nat)
  {
    restored.url == saved.url && restored.cookieStoreId == saved.cookieStoreId && restored.active == saved.active
    && restored.pinned && restored.index == k
  }

  /**
   * Saving and then restoring, while every container still resolves and every tabs.create
   * succeeds, reopens the saved pinned tabs one for one, in order, with their containers,
   * and reports nothing missing.
   */
  lemma SaveThenRestore(current: seq<Tab>, lookup: string -> Lookup, now: int, env: Env)
    requires current != []
    requires forall k :: 0 <= k < |current| ==> Resolves(current[k].cookieStoreId, env.lookup) && env.primaryOk(k)
    ensures var records := Records(current, lookup);
            TabsToRestore(Some(Collection(Some(records), now))) == Some(records)
            && var s := Reconcile(records, env);
            s.missing == [] && |OpenedTabs(s.created)| == |current|
            && forall k :: 0 <= k < |current| ==> Reopens(OpenedTabs(s.created)[k], current[k], k)
  {
    AllResolvedRestoresAsSaved(Records(current, lookup), env);
  }

  /**
   * A container found at save time and deleted before the restore is reported under the
   * name it had when saved, and recreated with the name, colour and icon it had then.
   */
  lemma DeletedContainerReportedByName(current: seq<Tab>, lookup: string -> Lookup, env: Env, k: nat)
    requires k < |current|
    requires var id := current[k].cookieStoreId;
             !IsDefaultRef(id) && lookup(id.value).Found? && lookup(id.value).identity.name != ""
             && !Resolves(id, env.lookup)
    ensures var t := Records(current, lookup)[k];
            var c := lookup(current[k].cookieStoreId.value).identity;
            MissingOf(t, env.lookup) == [c.name]
            && Recreates(t, env) && CallsOf(t, k, env)[0] == IdentityCreateCall(ContainerSpec(c.name, c.color, c.icon))
            && (Truthy(env.recreate(k)) && env.primaryOk(k) ==> Attempt(t, k, env) == Some(Primary(t, env.recreate(k))))
  {
  }
}
