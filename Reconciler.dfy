/**
 * The restore reconciler, as a specification: what restorePinnedTabs does for each saved
 * tab, and what the whole run adds up to, given the browser's answers. The imperative loop
 * in module Popup is proved equal to `Reconcile`; the lemmas here state what it promises.
 */
module Reconciler {
  import opened Wrappers
  import opened Containers
  import opened Tabs

  /**
   * The browser's answers during one restore. `lookup` is the container registry, fixed
   * for the run. The other outcomes are indexed by the saved tab's position k:
   * `recreate(k)` is what contextualIdentities.create reported for tab k (None: it threw),
   * `primaryOk(k)` and `fallbackOk(k)` whether tab k's first and second tabs.create
   * succeeded, and `removeOk` whether removing the old pinned tabs succeeded.
   */
  datatype Env = Env(
    lookup: string -> Lookup,
    recreate: nat -> Option<string>,
    primaryOk: nat -> bool,
    fallbackOk: nat -> bool,
    removeOk: bool)

  /** The result of one restore run. */
  datatype RestoreOutcome =
    | NothingToRestore
    | RestoreFailed
    | Restored(restoredCount: nat, total: nat, missingContainers: seq<string>)

  /** The tabs a stored value asks to restore: None when it is absent, has no tabs, or has an empty list. */
  function TabsToRestore(stored: Option<Collection>): (r: Option<seq<SavedTab>>)
    ensures r.Some? <==> stored.Some? && stored.value.tabs.Some? && stored.value.tabs.value != []
    ensures r.Some? ==> r == stored.value.tabs
  {
    if stored.None? || stored.value.tabs.None? || |stored.value.tabs.value| == 0 then None
    else stored.value.tabs
  }

  /** The first tabs.create of a saved tab: its url and active flag, pinned, with container `id`. */
  function Primary(t: SavedTab, id: Option<string>): CreateRequest
  {
    CreateRequest(t.url, true, Passed(id), t.active)
  }

  /** The retry after a failed first tabs.create: the same tab without any cookieStoreId. */
  function Fallback(t: SavedTab): CreateRequest
  {
    CreateRequest(t.url, true, Omitted, t.active)
  }

  /**
   * The container reference the first tabs.create of tab k uses: the saved one when it still
   * resolves, otherwise the recreated container's id, or null when recreation gave nothing.
   */
  function ResolvedRef(t: SavedTab, k: nat, env: Env): (r: Option<string>)
    ensures Resolves(t.cookieStoreId, env.lookup) ==> r == t.cookieStoreId
    ensures !Resolves(t.cookieStoreId, env.lookup) && r.Some? ==>
              r.value != "" && RecreateRequest(t.containerInfo).Some? && r == env.recreate(k)
    ensures (!Resolves(t.cookieStoreId, env.lookup) && RecreateRequest(t.containerInfo).Some?
             && Truthy(env.recreate(k))) ==> r == env.recreate(k)
  {
    if Resolves(t.cookieStoreId, env.lookup) then t.cookieStoreId
    else
      var id := RecreateContainer(t.containerInfo, env.recreate(k));
      if Truthy(id) then id else None
  }

  /** Whether restoring a tab that no longer resolves asks the registry for a new container. */
  predicate Recreates(t: SavedTab, env: Env)
  {
    !Resolves(t.cookieStoreId, env.lookup) && RecreateRequest(t.containerInfo).Some?
  }

  /** The names one saved tab adds to missingContainers: one, and only when its reference no longer resolves. */
  function MissingOf(t: SavedTab, lookup: string -> Lookup): (r: seq<string>)
    ensures |r| <= 1
    ensures r != [] <==> !Resolves(t.cookieStoreId, lookup)
    ensures r != [] ==> r[0] == MissingName(t.containerInfo)
  {
    if Resolves(t.cookieStoreId, lookup) then [] else [MissingName(t.containerInfo)]
  }

  /** The calls restoring saved tab t at position k makes, in order. */
  function CallsOf(t: SavedTab, k: nat, env: Env): (r: seq<Call>)
    // at most one container creation, then the first tabs.create, then at most one retry
    ensures var c := if Recreates(t, env) then 1 else 0;
            |r| == c + (if env.primaryOk(k) then 1 else 2)
            && (c == 1 ==> r[0] == IdentityCreateCall(RecreateRequest(t.containerInfo).value))
            && r[c] == TabCreateCall(Primary(t, ResolvedRef(t, k, env)))
            && (!env.primaryOk(k) ==> r[c + 1] == TabCreateCall(Fallback(t)))
    // a reference that resolves reaches tabs.create unchanged, with no container created
    ensures Resolves(t.cookieStoreId, env.lookup) ==> r[0] == TabCreateCall(Primary(t, t.cookieStoreId))
  {
    var recreate := if Recreates(t, env) then [IdentityCreateCall(RecreateRequest(t.containerInfo).value)] else [];
    var primary := TabCreateCall(Primary(t, ResolvedRef(t, k, env)));
    if env.primaryOk(k) then recreate + [primary]
    else recreate + [primary, TabCreateCall(Fallback(t))]
  }

  /**
   * The tab restoring saved tab t at position k opens: the first request when it succeeds,
   * else the containerless retry when that succeeds, else none.
   */
  function Attempt(t: SavedTab, k: nat, env: Env): (r: Option<CreateRequest>)
    ensures r.Some? <==> env.primaryOk(k) || env.fallbackOk(k)
    ensures r.Some? ==> r.value.url == t.url && r.value.pinned && r.value.active == t.active
    ensures env.primaryOk(k) ==> r.value.container == Passed(ResolvedRef(t, k, env))
    ensures !env.primaryOk(k) && env.fallbackOk(k) ==> r == Some(Fallback(t))
    ensures !env.primaryOk(k) && r.Some? ==> r.value.container == Omitted
  {
    if env.primaryOk(k) then Some(Primary(t, ResolvedRef(t, k, env)))
    else if env.fallbackOk(k) then Some(Fallback(t))
    else None
  }

  /** What the restore loop has accumulated after a prefix of the saved tabs. */
  datatype Summary = Summary(missing: seq<string>, calls: seq<Call>, created: seq<CreateRequest>)

  function OptionToSeq<T>(o: Option<T>): seq<T>
  {
    if o.Some? then [o.value] else []
  }

  /** missingContainers after the restore loop has run over `tabs`. */
  function MissingFold(tabs: seq<SavedTab>, lookup: string -> Lookup): (r: seq<string>)
    ensures |r| <= |tabs|
    decreases |tabs|
  {
    if tabs == [] then []
    else
      var n := |tabs| - 1;
      MissingFold(tabs[..n], lookup) + MissingOf(tabs[n], lookup)
  }

  /** The calls the restore loop has made after running over `tabs`. */
  function CallsFold(tabs: seq<SavedTab>, env: Env): seq<Call>
    decreases |tabs|
  {
    if tabs == [] then []
    else
      var n := |tabs| - 1;
      CallsFold(tabs[..n], env) + CallsOf(tabs[n], n, env)
  }

  /** The successful tabs.create requests after the restore loop has run over `tabs`. */
  function CreatedFold(tabs: seq<SavedTab>, env: Env): (r: seq<CreateRequest>)
    ensures |r| <= |tabs|
    decreases |tabs|
  {
    if tabs == [] then []
    else
      var n := |tabs| - 1;
      CreatedFold(tabs[..n], env) + OptionToSeq(Attempt(tabs[n], n, env))
  }

  /** The restore loop over `tabs`, in stored order, each tab at its own position. */
  function Reconcile(tabs: seq<SavedTab>, env: Env): (s: Summary)
    ensures |s.created| <= |tabs|
    ensures |s.missing| <= |tabs|
  {
    Summary(MissingFold(tabs, env.lookup), CallsFold(tabs, env), CreatedFold(tabs, env))
  }

  /** The number of positions of `mask` that hold true. */
  function Count(mask: seq<bool>): (r: nat)
    ensures r <= |mask|
    ensures r == |mask| <==> forall k :: 0 <= k < |mask| ==> mask[k]
    decreases |mask|
  {
    if mask == [] then 0
    else
      var n := |mask| - 1;
      assert forall k :: 0 <= k < n ==> mask[..n][k] == mask[k];
      Count(mask[..n]) + (if mask[n] then 1 else 0)
  }

  function Negated(mask: seq<bool>): (r: seq<bool>)
    ensures |r| == |mask| && forall k :: 0 <= k < |r| ==> r[k] == !mask[k]
  {
    seq(|mask|, k requires 0 <= k < |mask| => !mask[k])
  }

  /** Every position holds either in the mask or in its negation. */
  lemma {:induction false} CountSplit(mask: seq<bool>)
    ensures Count(mask) + Count(Negated(mask)) == |mask|
    decreases |mask|
  {
    if mask != [] {
      var n := |mask| - 1;
      var prev := mask[..n];
      CountSplit(prev);
      var neg := Negated(mask);
      assert neg[..n] == Negated(prev) by {
        forall k | 0 <= k < n ensures neg[..n][k] == Negated(prev)[k] {
          assert prev[k] == mask[k];
        }
      }
      assert Count(neg) == Count(Negated(prev)) + (if neg[n] then 1 else 0);
    }
  }

  /** Which of the first n saved tabs get a tab opened by one of their two attempts. */
  function RestoredMask(n: nat, env: Env): (m: seq<bool>)
    ensures |m| == n
    ensures forall k :: 0 <= k < n ==> (m[k] <==> env.primaryOk(k) || env.fallbackOk(k))
  {
    seq(n, k requires 0 <= k < n => env.primaryOk(k) || env.fallbackOk(k))
  }

  /** Reconcile over a longer prefix adds the next tab's contribution. */
  lemma ReconcilePrefix(tabs: seq<SavedTab>, env: Env, n: nat)
    requires n < |tabs|
    ensures var prev := Reconcile(tabs[..n], env);
            var t := tabs[n];
            Reconcile(tabs[..n + 1], env)
              == Summary(prev.missing + MissingOf(t, env.lookup), prev.calls + CallsOf(t, n, env),
                         prev.created + OptionToSeq(Attempt(t, n, env)))
  {
    assert tabs[..n + 1][..n] == tabs[..n];
  }

  /**
   * The names a restore reports missing, read front to back: one per saved tab whose
   * reference no longer resolves, in tab order, duplicates kept.
   */
  function MissingNames(tabs: seq<SavedTab>, lookup: string -> Lookup): seq<string>
    decreases |tabs|
  {
    if tabs == [] then []
    else
      MissingOf(tabs[0], lookup) + MissingNames(tabs[1..], lookup)
  }

  lemma {:induction false} MissingNamesAppend(a: seq<SavedTab>, b: seq<SavedTab>, lookup: string -> Lookup)
    ensures MissingNames(a + b, lookup) == MissingNames(a, lookup) + MissingNames(b, lookup)
    decreases |a|
  {
    if a == [] {
      assert a + b == b;
    } else {
      var head := MissingOf(a[0], lookup);
      MissingNamesAppend(a[1..], b, lookup);
      assert (a + b)[0] == a[0] && (a + b)[1..] == a[1..] + b;
      assert MissingNames(a + b, lookup) == head + MissingNames(a[1..] + b, lookup);
      AppendAssoc(head, MissingNames(a[1..], lookup), MissingNames(b, lookup));
    }
  }

  /** No name is reported missing exactly when every saved reference still resolves. */
  lemma {:induction false} MissingNamesEmpty(tabs: seq<SavedTab>, lookup: string -> Lookup)
    ensures MissingNames(tabs, lookup) == [] <==> forall k :: 0 <= k < |tabs| ==> Resolves(tabs[k].cookieStoreId, lookup)
    decreases |tabs|
  {
    if tabs != [] {
      MissingNamesEmpty(tabs[1..], lookup);
      assert forall k :: 1 <= k < |tabs| ==> tabs[1..][k - 1] == tabs[k];
    }
  }

  /** missingContainers is exactly the front-to-back list of names of tabs that no longer resolve. */
  lemma {:induction false} MissingInTabOrder(tabs: seq<SavedTab>, env: Env)
    ensures Reconcile(tabs, env).missing == MissingNames(tabs, env.lookup)
    decreases |tabs|
  {
    if tabs != [] {
      var n := |tabs| - 1;
      var prev, t := tabs[..n], tabs[n];
      MissingInTabOrder(prev, env);
      MissingNamesAppend(prev, [t], env.lookup);
      assert prev + [t] == tabs;
      assert MissingNames([t], env.lookup) == MissingOf(t, env.lookup) by {
        assert [t][1..] == [];
      }
      assert MissingFold(tabs, env.lookup) == MissingFold(prev, env.lookup) + MissingOf(t, env.lookup);
    }
  }

  /** The requests that open a tab, front to back, for saved tabs that start at position `from`. */
  function OpenedFrom(tabs: seq<SavedTab>, env: Env, from: nat): seq<CreateRequest>
    decreases |tabs|
  {
    if tabs == [] then []
    else OptionToSeq(Attempt(tabs[0], from, env)) + OpenedFrom(tabs[1..], env, from + 1)
  }

  lemma {:induction false} OpenedFromAppend(a: seq<SavedTab>, b: seq<SavedTab>, env: Env, from: nat)
    ensures OpenedFrom(a + b, env, from) == OpenedFrom(a, env, from) + OpenedFrom(b, env, from + |a|)
    decreases |a|
  {
    if a == [] {
      assert a + b == b;
    } else {
      var head := OptionToSeq(Attempt(a[0], from, env));
      OpenedFromAppend(a[1..], b, env, from + 1);
      assert (a + b)[0] == a[0] && (a + b)[1..] == a[1..] + b;
      assert OpenedFrom(a + b, env, from) == head + OpenedFrom(a[1..] + b, env, from + 1);
      AppendAssoc(head, OpenedFrom(a[1..], env, from + 1), OpenedFrom(b, env, from + |a|));
    }
  }

  /**
   * The tabs are opened in stored order: read front to back, each saved tab contributes the
   * request that succeeded for it at its own position, or nothing when both attempts failed.
   */
  lemma {:induction false} OpenedInStoredOrder(tabs: seq<SavedTab>, env: Env)
    ensures Reconcile(tabs, env).created == OpenedFrom(tabs, env, 0)
    decreases |tabs|
  {
    if tabs != [] {
      var n := |tabs| - 1;
      var prev, t := tabs[..n], tabs[n];
      OpenedInStoredOrder(prev, env);
      OpenedFromAppend(prev, [t], env, 0);
      assert prev + [t] == tabs;
      assert OpenedFrom([t], env, n) == OptionToSeq(Attempt(t, n, env)) by {
        assert [t][1..] == [];
      }
      assert CreatedFold(tabs, env) == CreatedFold(prev, env) + OptionToSeq(Attempt(t, n, env));
    }
  }

  /** Every tab the restore opens is pinned. */
  lemma {:induction false} CreatedArePinned(tabs: seq<SavedTab>, env: Env)
    ensures forall j :: 0 <= j < |Reconcile(tabs, env).created| ==> Reconcile(tabs, env).created[j].pinned
    decreases |tabs|
  {
    if tabs != [] {
      var n := |tabs| - 1;
      CreatedArePinned(tabs[..n], env);
      var prev := CreatedFold(tabs[..n], env);
      var c := CreatedFold(tabs, env);
      assert c == prev + OptionToSeq(Attempt(tabs[n], n, env));
      forall j | 0 <= j < |c| ensures c[j].pinned {
        if j < |prev| {
          assert c[j] == prev[j] == Reconcile(tabs[..n], env).created[j];
        } else {
          assert c[j] == Attempt(tabs[n], n, env).value;
        }
      }
    }
  }

  /** The number of tabs opened from the first n saved tabs. */
  lemma {:induction false} CreatedUpTo(tabs: seq<SavedTab>, env: Env, n: nat)
    requires n <= |tabs|
    ensures |Reconcile(tabs[..n], env).created| == Count(RestoredMask(n, env))
  {
    if n > 0 {
      CreatedUpTo(tabs, env, n - 1);
      assert tabs[..n][..n - 1] == tabs[..n - 1];
      assert RestoredMask(n, env)[..n - 1] == RestoredMask(n - 1, env);
    }
  }

  /**
   * Each saved tab adds at most one to the count; the count reaches the number of saved
   * tabs exactly when every tab's first or second attempt succeeded, and falls short by
   * exactly the number of tabs whose two attempts both failed.
   */
  lemma RestoredCount(tabs: seq<SavedTab>, env: Env)
    ensures var count := |Reconcile(tabs, env).created|;
            count <= |tabs|
            && (count == |tabs| <==> forall k :: 0 <= k < |tabs| ==> env.primaryOk(k) || env.fallbackOk(k))
            && |tabs| - count == Count(Negated(RestoredMask(|tabs|, env)))
  {
    CreatedUpTo(tabs, env, |tabs|);
    assert tabs[..|tabs|] == tabs;
    CountSplit(RestoredMask(|tabs|, env));
  }

  /**
   * When every saved reference still resolves and every first tabs.create succeeds, nothing
   * is reported missing, no container is created, and the j-th tab opened is the j-th saved
   * tab with its saved reference.
   */
  lemma {:induction false} AllResolvedRestoresAsSaved(tabs: seq<SavedTab>, env: Env)
    requires forall k :: 0 <= k < |tabs| ==> Resolves(tabs[k].cookieStoreId, env.lookup) && env.primaryOk(k)
    ensures var s := Reconcile(tabs, env);
            s.missing == [] && ContainerCreations(s.calls) == [] && |s.created| == |tabs|
            && forall k :: 0 <= k < |tabs| ==> s.created[k] == Primary(tabs[k], tabs[k].cookieStoreId)
    decreases |tabs|
  {
    MissingInTabOrder(tabs, env);
    MissingNamesEmpty(tabs, env.lookup);
    OneRecreationPerAffectedTab(tabs, env);
    var mask := RecreateMask(tabs, env);
    CountSplit(mask);
    assert Count(Negated(mask)) == |mask|;
    EveryFirstCreateSucceeds(tabs, env);
  }

  lemma {:induction false} EveryFirstCreateSucceeds(tabs: seq<SavedTab>, env: Env)
    requires forall k :: 0 <= k < |tabs| ==> Resolves(tabs[k].cookieStoreId, env.lookup) && env.primaryOk(k)
    ensures var c := CreatedFold(tabs, env);
            |c| == |tabs| && forall k :: 0 <= k < |tabs| ==> c[k] == Primary(tabs[k], tabs[k].cookieStoreId)
    decreases |tabs|
  {
    if tabs != [] {
      var n := |tabs| - 1;
      var prev, t := tabs[..n], tabs[n];
      EveryFirstCreateSucceeds(prev, env);
      assert Attempt(t, n, env) == Some(Primary(t, t.cookieStoreId));
      var c := CreatedFold(tabs, env);
      assert c == CreatedFold(prev, env) + [Primary(t, t.cookieStoreId)];
      forall k | 0 <= k < |tabs| ensures c[k] == Primary(tabs[k], tabs[k].cookieStoreId) {
        if k < n {
          assert prev[k] == tabs[k];
        }
      }
    }
  }

  /**
   * Tabs that shared a container that no longer resolves each ask the registry for a
   * container of their own: the run creates one container per such tab, not one per
   * deleted container.
   */
  lemma {:induction false} OneRecreationPerAffectedTab(tabs: seq<SavedTab>, env: Env)
    ensures |ContainerCreations(Reconcile(tabs, env).calls)| == Count(RecreateMask(tabs, env))
    decreases |tabs|
  {
    if tabs != [] {
      var n := |tabs| - 1;
      OneRecreationPerAffectedTab(tabs[..n], env);
      CreationsOfLastTab(tabs, env);
      RecreateMaskOfLastTab(tabs, env);
    }
  }

  /** The last saved tab adds one container creation to the run exactly when it `Recreates`. */
  lemma CreationsOfLastTab(tabs: seq<SavedTab>, env: Env)
    requires tabs != []
    ensures var n := |tabs| - 1;
            |ContainerCreations(CallsFold(tabs, env))|
              == |ContainerCreations(CallsFold(tabs[..n], env))| + if Recreates(tabs[n], env) then 1 else 0
  {
    var n := |tabs| - 1;
    ContainerCreationsAppend(CallsFold(tabs[..n], env), CallsOf(tabs[n], n, env));
    StepContainerCreations(tabs[n], n, env);
  }

  /** The last saved tab adds one to the count of recreating tabs exactly when it `Recreates`. */
  lemma RecreateMaskOfLastTab(tabs: seq<SavedTab>, env: Env)
    requires tabs != []
    ensures var n := |tabs| - 1;
            Count(RecreateMask(tabs, env)) == Count(RecreateMask(tabs[..n], env)) + if Recreates(tabs[n], env) then 1 else 0
  {
    var n := |tabs| - 1;
    assert RecreateMask(tabs, env)[..n] == RecreateMask(tabs[..n], env);
  }

  /** One saved tab creates a container exactly when it `Recreates`. */
  lemma StepContainerCreations(t: SavedTab, k: nat, env: Env)
    ensures |ContainerCreations(CallsOf(t, k, env))| == if Recreates(t, env) then 1 else 0
  {
    var calls := CallsOf(t, k, env);
    var c := if Recreates(t, env) then 1 else 0;
    var tail := [calls[c]] + (if env.primaryOk(k) then [] else [calls[c + 1]]);
    assert calls == calls[..c] + tail;
    ContainerCreationsAppend(calls[..c], tail);
    if !env.primaryOk(k) {
      ContainerCreationsAppend([calls[c]], [calls[c + 1]]);
    }
  }

  /** Which saved tabs make a container-creation call. */
  function RecreateMask(tabs: seq<SavedTab>, env: Env): (m: seq<bool>)
    ensures |m| == |tabs|
    ensures forall k :: 0 <= k < |m| ==> (m[k] <==> Recreates(tabs[k], env))
  {
    seq(|tabs|, k requires 0 <= k < |tabs| => Recreates(tabs[k], env))
  }

  /** The container creations among some calls, in order. */
  function ContainerCreations(calls: seq<Call>): seq<ContainerSpec>
    decreases |calls|
  {
    if calls == [] then []
    else
      var n := |calls| - 1;
      ContainerCreations(calls[..n]) + (if calls[n].IdentityCreateCall? then [calls[n].spec] else [])
  }

  lemma {:induction false} ContainerCreationsAppend(a: seq<Call>, b: seq<Call>)
    ensures ContainerCreations(a + b) == ContainerCreations(a) + ContainerCreations(b)
    decreases |b|
  {
    if b != [] {
      var n := |b| - 1;
      ContainerCreationsAppend(a, b[..n]);
      assert a + b != [];
      assert (a + b)[..|a| + n] == a + b[..n];
      assert (a + b)[|a| + n] == b[n];
    } else {
      assert a + b == a;
    }
  }
}
