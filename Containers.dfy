/**
 * The container directory as the popup sees it: turning a tab's cookieStoreId into the
 * display attributes of its container, asking the registry to recreate a deleted container,
 * and the two display lookups for a container's colour and icon.
 *
 * The registry itself (browser.contextualIdentities) is foreign: a lookup is a function
 * from an id to what the registry answered, and a creation is the outcome it reported.
 */
module Containers {
  import opened Wrappers

  /** A container as the registry reports it. */
  datatype Identity = Identity(name: string, color: Option<string>, icon: Option<string>, iconUrl: Option<string>)

  /** What one registry lookup did: returned a container, returned nothing, or threw. */
  datatype Lookup = Found(identity: Identity) | Nothing | Threw

  /** The container record stored beside each saved tab. */
  datatype ContainerInfo = ContainerInfo(
    name: string,
    color: Option<string>,
    icon: Option<string>,
    iconUrl: Option<string>,
    isDefault: bool)

  /** The attributes sent to the registry when a container is recreated. */
  datatype ContainerSpec = ContainerSpec(name: string, color: Option<string>, icon: Option<string>)

  /** The fixed record for a tab outside every container. */
  const DefaultInfo := ContainerInfo("Default", None, None, None, true)

  /** The cookie store of ordinary, non-container tabs. */
  const DefaultStoreId := "firefox-default"

  /** JavaScript truthiness of a nullable string: present and not empty. */
  predicate Truthy(s: Option<string>)
  {
    s.Some? && s.value != ""
  }

  /** A falsy reference or the default store's id both mean "no container". */
  predicate IsDefaultRef(id: Option<string>)
  {
    !Truthy(id) || id.value == DefaultStoreId
  }

  /** The record carries exactly the attributes the registry reported. */
  predicate Describes(info: ContainerInfo, c: Identity)
  {
    info.name == c.name && info.color == c.color && info.icon == c.icon && info.iconUrl == c.iconUrl
  }

  /**
   * getContainerInfo: the default record for a default reference, without asking the
   * registry; a non-default record when the registry finds the container; otherwise
   * nothing, whether the registry answered "no such container" or threw.
   */
  function GetContainerInfo(id: Option<string>, lookup: string -> Lookup): (r: Option<ContainerInfo>)
    ensures IsDefaultRef(id) ==> r == Some(DefaultInfo)
    ensures !IsDefaultRef(id) ==> (r.Some? <==> lookup(id.value).Found?)
    ensures r.Some? ==> (r.value.isDefault <==> IsDefaultRef(id))
    ensures r.Some? && !IsDefaultRef(id) ==> Describes(r.value, lookup(id.value).identity)
  {
    if IsDefaultRef(id) then Some(DefaultInfo)
    else
      match lookup(id.value)
      case Found(c) => Some(ContainerInfo(c.name, c.color, c.icon, c.iconUrl, false))
      case Nothing => None
      case Threw => None
  }

  /** Whether a reference still names a usable container (the default one included). */
  predicate Resolves(id: Option<string>, lookup: string -> Lookup)
  {
    GetContainerInfo(id, lookup).Some?
  }

  /**
   * The registry call recreateContainer makes: none for a missing or default record,
   * otherwise a container with the saved name, colour and icon.
   */
  function RecreateRequest(info: Option<ContainerInfo>): (r: Option<ContainerSpec>)
    ensures r.Some? <==> info.Some? && !info.value.isDefault
    ensures r.Some? ==> r.value.name == info.value.name && r.value.color == info.value.color
                        && r.value.icon == info.value.icon
  {
    if info.None? || info.value.isDefault then None
    else Some(ContainerSpec(info.value.name, info.value.color, info.value.icon))
  }

  /**
   * recreateContainer: the id of the new container, given what the registry reported for
   * the creation (`outcome`, None when it threw); nothing, and no creation, for a missing
   * or default record.
   */
  function RecreateContainer(info: Option<ContainerInfo>, outcome: Option<string>): (r: Option<string>)
    ensures RecreateRequest(info).None? ==> r.None?
    ensures RecreateRequest(info).Some? ==> r == outcome
  {
    if info.None? || info.value.isDefault then None else outcome
  }

  /** A container that was found at save time is recreated with the attributes found then. */
  lemma RecreateFromSavedInfo(id: Option<string>, lookup: string -> Lookup, outcome: Option<string>)
    requires !IsDefaultRef(id) && lookup(id.value).Found?
    ensures var c := lookup(id.value).identity;
            RecreateRequest(GetContainerInfo(id, lookup)) == Some(ContainerSpec(c.name, c.color, c.icon))
    ensures RecreateContainer(GetContainerInfo(id, lookup), outcome) == outcome
  {
  }

  /** The name listed for a container that no longer resolves. */
  function MissingName(info: Option<ContainerInfo>): (r: string)
    ensures r != ""
    ensures info.Some? && info.value.name != "" ==> r == info.value.name
    ensures r == "Unknown" || (info.Some? && r == info.value.name)
  {
    if info.Some? && info.value.name != "" then info.value.name else "Unknown"
  }

  /** The colours the popup knows, with their CSS values. */
  const Palette: map<string, string> := map[
    "blue" := "#0060df",
    "turquoise" := "#00b1b4",
    "green" := "#12bc00",
    "yellow" := "#ffe900",
    "orange" := "#ff9400",
    "red" := "#e31587",
    "pink" := "#ff4bda",
    "purple" := "#9400ff",
    "toolbar" := "#7c7c7d"]

  const NeutralColor := "#7c7c7d"

  predicate IsHexColor(s: string)
  {
    |s| == 7 && s[0] == '#' && forall i :: 1 <= i < 7 ==> s[i] in "0123456789abcdef"
  }

  /** getContainerColor: the listed CSS colour, or the neutral grey for any other token. */
  function GetContainerColor(color: Option<string>): (r: string)
    ensures IsHexColor(r)
    ensures color.Some? && color.value in Palette ==> r == Palette[color.value]
    ensures !(color.Some? && color.value in Palette) ==> r == NeutralColor
  {
    if color.Some? && color.value in Palette then Palette[color.value] else NeutralColor
  }

  const IconPrefix := "resource://usercontext-content/"
  const IconSuffix := ".svg"

  /** The icon token inside an icon URL, when the URL has the icon URL's shape. */
  function IconName(url: string): Option<string>
  {
    if |url| >= |IconPrefix| + |IconSuffix| && url[..|IconPrefix|] == IconPrefix
       && url[|url| - |IconSuffix|..] == IconSuffix
    then Some(url[|IconPrefix|..|url| - |IconSuffix|])
    else None
  }

  /** getContainerIcon: no URL for a falsy token; otherwise a URL the token can be read back from. */
  function GetContainerIcon(icon: Option<string>): (r: Option<string>)
    ensures r.None? <==> !Truthy(icon)
    ensures r.Some? ==> IconName(r.value) == icon
  {
    if !Truthy(icon) then None
    else
      var url := IconPrefix + icon.value + IconSuffix;
      assert url[..|IconPrefix|] == IconPrefix;
      assert url[|url| - |IconSuffix|..] == IconSuffix;
      assert url[|IconPrefix|..|url| - |IconSuffix|] == icon.value;
      Some(url)
  }
}
