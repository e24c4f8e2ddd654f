/**
 * Tabs as the browser reports them, the records the popup saves for them, the single
 * stored collection, and the calls the popup makes that change tabs or containers.
 */
module Tabs {
  import opened Wrappers
  import opened Containers

  /** A live tab, as tabs.query reports it. */
  datatype Tab = Tab(
    url: string,
    title: string,
    pinned: bool,
    cookieStoreId: Option<string>,
    active: bool,
    index: nat)

  /** One saved pinned tab. */
  datatype SavedTab = SavedTab(
    url: string,
    title: string,
    pinned: bool,
    cookieStoreId: Option<string>,
    containerInfo: Option<ContainerInfo>,
    active: bool,
    index: nat)

  /** The value under the storage key "savedTabs"; `tabs` may be absent in a value not written by save. */
  datatype Collection = Collection(tabs: Option<seq<SavedTab>>, timestamp: int)

  /** The cookieStoreId property of a tabs.create call: given (possibly null) or left out. */
  datatype ContainerArg = Passed(id: Option<string>) | Omitted

  /** The properties passed to tabs.create. */
  datatype CreateRequest = CreateRequest(url: string, pinned: bool, container: ContainerArg, active: bool)

  /** A call that changes the browser's tabs or containers. */
  datatype Call =
    | RemoveCall(tabs: seq<Tab>)
    | IdentityCreateCall(spec: ContainerSpec)
    | TabCreateCall(request: CreateRequest)

  /** The record and the live tab agree on every copied property. */
  predicate Copies(s: SavedTab, t: Tab)
  {
    s.url == t.url && s.title == t.title && s.pinned == t.pinned && s.cookieStoreId == t.cookieStoreId
    && s.active == t.active && s.index == t.index
  }

  /** A record's container reference and its container record agree on "no container". */
  predicate Consistent(s: SavedTab)
  {
    s.containerInfo.Some? ==> (s.containerInfo.value.isDefault <==> IsDefaultRef(s.cookieStoreId))
  }

  /**
   * The record extraction of savePinnedTabs: one record per queried tab, in query order,
   * each with the container record looked up for its cookieStoreId.
   */
  function Records(tabs: seq<Tab>, lookup: string -> Lookup): (r: seq<SavedTab>)
    ensures |r| == |tabs|
    ensures forall i :: 0 <= i < |r| ==> Copies(r[i], tabs[i]) && Consistent(r[i])
    ensures forall i :: 0 <= i < |r| ==> r[i].containerInfo == GetContainerInfo(tabs[i].cookieStoreId, lookup)
  {
    seq(|tabs|, i requires 0 <= i < |tabs| =>
      var t := tabs[i];
      SavedTab(t.url, t.title, t.pinned, t.cookieStoreId, GetContainerInfo(t.cookieStoreId, lookup), t.active, t.index))
  }

  /** The tab the browser adds for a successful tabs.create; its title is empty until the page loads. */
  function OpenedTab(request: CreateRequest, index: nat): Tab
  {
    Tab(request.url, "", request.pinned,
        if request.container.Passed? then request.container.id else None,
        request.active, index)
  }

  /** The pinned tabs opened, in order, from these successful requests into an empty pinned area. */
  function OpenedTabs(requests: seq<CreateRequest>): (r: seq<Tab>)
    ensures |r| == |requests|
    ensures forall i :: 0 <= i < |r| ==> r[i] == OpenedTab(requests[i], i)
  {
    seq(|requests|, i requires 0 <= i < |requests| => OpenedTab(requests[i], i))
  }

  lemma OpenedTabsAppend(requests: seq<CreateRequest>, request: CreateRequest)
    ensures OpenedTabs(requests + [request]) == OpenedTabs(requests) + [OpenedTab(request, |requests|)]
  {
    var r := requests + [request];
    assert forall i :: 0 <= i < |requests| ==> r[i] == requests[i];
  }

  lemma AppendAssoc<T>(a: seq<T>, b: seq<T>, c: seq<T>)
    ensures (a + b) + c == a + (b + c)
  {
  }
}
