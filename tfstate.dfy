/** The lookups of internal/tfstatereader/tfstate.go over a Terraform state.

    Reading the state (a file or a URL) is outside the model: each operation
    takes what the state library would have answered as a parameter, the
    address list `State.List()` returns or the attribute map
    `State.Lookup(resource)` returns, each possibly a failure. */
module TfState {
  import opened Wrappers
  import opened Strings
  import opened Configs

  /** The errors the handler reports. */
  datatype Error =
    | ConfigNotLoaded
    | ResourceNotFound(resource: string, cause: string)
    | NoImportantAttributes(resource: string)
    | ListingFailed(cause: string)
    | NoResourcesFound(resource: string)

  /** The answer of `State.List()`: every resource address in the state, or
      why listing failed. */
  type Listing = Result<seq<string>, string>

  /** The answer of `State.Lookup(resource)`: the resource's attribute
      values, or why it was not found. */
  type Lookup = Result<map<string, string>, string>

  /** The location prefixes that make a state path a URL. */
  const UrlSchemes: seq<string> := ["http://", "https://", "s3://", "gs://", "azurerm://", "remote://"]

  // ---------------------------------------------------------------------
  // isURL
  // ---------------------------------------------------------------------

  /** Whether the state path is read as a URL rather than a local file: it
      starts with one of the supported schemes. */
  predicate IsUrl(path: string) {
    exists k :: 0 <= k < |UrlSchemes| && HasPrefix(path, UrlSchemes[k])
  }

  /** The scheme table gives exactly the six-way prefix test written out
      in `isURL`. */
  lemma IsUrlPrefixes(path: string)
    ensures IsUrl(path) <==>
      HasPrefix(path, "http://") || HasPrefix(path, "https://") ||
      HasPrefix(path, "s3://") || HasPrefix(path, "gs://") ||
      HasPrefix(path, "azurerm://") || HasPrefix(path, "remote://")
  {
    assert UrlSchemes[0] == "http://" && UrlSchemes[1] == "https://" && UrlSchemes[2] == "s3://";
    assert UrlSchemes[3] == "gs://" && UrlSchemes[4] == "azurerm://" && UrlSchemes[5] == "remote://";
  }

  /** A consequence of the scheme table: a URL state path always contains
      `://`, so a path without it, such as `terraform.tfstate`, is read from
      disk. */
  lemma UrlHasSchemeSeparator(path: string)
    requires IsUrl(path)
    ensures exists i :: SeparatorAt(path, i)
  {
    var k :| 0 <= k < |UrlSchemes| && HasPrefix(path, UrlSchemes[k]);
    var s := UrlSchemes[k];
    var i := |s| - 3;
    assert path[i..i + 3] == s[i..i + 3];
    assert s[i..i + 3] == "://";
    assert SeparatorAt(path, i);
  }

  /** `://` occurs in `path` at position `i`. */
  predicate SeparatorAt(path: string, i: int) {
    0 <= i <= |path| - 3 && path[i..i + 3] == "://"
  }

  // ---------------------------------------------------------------------
  // Instances of a resource created with count or for_each
  // ---------------------------------------------------------------------

  /** The test both listing functions apply: `address` is an instance of
      `resource`, `resource[...]` with an index or a quoted key. */
  predicate IsInstanceAddress(resource: string, address: string) {
    HasPrefix(address, resource + "[") || HasPrefix(address, resource + "[\"")
  }

  /** The quoted-key test is subsumed: an instance address is exactly one
      starting with `resource[`. */
  lemma InstanceTestSimplifies(resource: string, address: string)
    ensures IsInstanceAddress(resource, address) <==> HasPrefix(address, resource + "[")
  {
    if HasPrefix(address, resource + "[\"") {
      var p := resource + "[";
      assert (resource + "[\"")[..|p|] == p;
      assert address[..|p|] == (resource + "[\"")[..|p|];
    }
  }

  /** The instance addresses of `resource` among `addresses`, in list
      order. */
  function InstancesOf(resource: string, addresses: seq<string>): (r: seq<string>)
    ensures |r| <= |addresses|
    ensures forall x :: x in r ==> x in addresses && IsInstanceAddress(resource, x)
    decreases |addresses|
  {
    if addresses == [] then []
    else
      var last := addresses[|addresses| - 1];
      InstancesOf(resource, addresses[..|addresses| - 1]) + (if IsInstanceAddress(resource, last) then [last] else [])
  }

  /** InstancesOf keeps every instance address as often as it is listed
      and drops every other address. */
  lemma {:induction false} InstancesOfCounts(resource: string, addresses: seq<string>, x: string)
    ensures multiset(InstancesOf(resource, addresses))[x] ==
              if IsInstanceAddress(resource, x) then multiset(addresses)[x] else 0
    decreases |addresses|
  {
    if addresses != [] {
      var init := addresses[..|addresses| - 1];
      var last := addresses[|addresses| - 1];
      InstancesOfCounts(resource, init, x);
      assert addresses == init + [last];
    }
  }

  /** Some listed address is an instance exactly when InstancesOf is not
      empty. */
  lemma {:induction false} InstancesOfNonEmpty(resource: string, addresses: seq<string>)
    ensures InstancesOf(resource, addresses) != [] <==>
              exists k :: 0 <= k < |addresses| && IsInstanceAddress(resource, addresses[k])
    decreases |addresses|
  {
    if addresses != [] {
      var init := addresses[..|addresses| - 1];
      var last := addresses[|addresses| - 1];
      InstancesOfNonEmpty(resource, init);
      if exists k :: 0 <= k < |init| && IsInstanceAddress(resource, init[k]) {
        var k :| 0 <= k < |init| && IsInstanceAddress(resource, init[k]);
        assert addresses[k] == init[k];
      }
      if exists k :: 0 <= k < |addresses| && IsInstanceAddress(resource, addresses[k]) {
        var k :| 0 <= k < |addresses| && IsInstanceAddress(resource, addresses[k]);
        if k < |init| {
          assert init[k] == addresses[k];
        }
      }
    }
  }

  /** Whether a resource was created with count or for_each: some listed
      address is one of its instances. A listing failure answers false. */
  method IsCreatedWithList(resource: string, listing: Listing) returns (b: bool)
    ensures b <==> listing.Success? &&
                   exists k :: 0 <= k < |listing.value| && IsInstanceAddress(resource, listing.value[k])
  {
    if listing.Failure? {
      return false;
    }
    var resourceList := listing.value;
    for k := 0 to |resourceList|
      invariant forall j :: 0 <= j < k ==> !IsInstanceAddress(resource, resourceList[j])
    {
      var res := resourceList[k];
      if HasPrefix(res, resource + "[") || HasPrefix(res, resource + "[\"") {
        return true;
      }
    }
    return false;
  }

  /** The instance addresses of a resource created with count or for_each,
      in list order; an error when listing fails or there are none. */
  method GetListOfNamesForResource(resource: string, listing: Listing) returns (r: Result<seq<string>, Error>)
    ensures listing.Failure? ==> r == Failure(ListingFailed(listing.error))
    ensures listing.Success? && InstancesOf(resource, listing.value) == [] ==> r == Failure(NoResourcesFound(resource))
    ensures listing.Success? && InstancesOf(resource, listing.value) != [] ==> r == Success(InstancesOf(resource, listing.value))
  {
    if listing.Failure? {
      return Failure(ListingFailed(listing.error));
    }
    var resourceList := listing.value;
    var resourceNames: seq<string> := [];
    for k := 0 to |resourceList|
      invariant resourceNames == InstancesOf(resource, resourceList[..k])
    {
      assert resourceList[..k + 1][..k] == resourceList[..k];
      var res := resourceList[k];
      if HasPrefix(res, resource + "[") || HasPrefix(res, resource + "[\"") {
        resourceNames := resourceNames + [res];
      }
    }
    assert resourceList[..|resourceList|] == resourceList;
    if |resourceNames| == 0 {
      return Failure(NoResourcesFound(resource));
    }
    return Success(resourceNames);
  }

  /** IsCreatedWithList and GetListOfNamesForResource agree: on the same
      listing, a resource is created with a list exactly when its names can
      be listed. */
  lemma CreatedWithListIffNamesListed(resource: string, listing: Listing)
    ensures (listing.Success? && exists k :: 0 <= k < |listing.value| && IsInstanceAddress(resource, listing.value[k]))
            <==> (listing.Success? && InstancesOf(resource, listing.value) != [])
  {
    if listing.Success? {
      InstancesOfNonEmpty(resource, listing.value);
    }
  }

  // ---------------------------------------------------------------------
  // GetImportantAttributes
  // ---------------------------------------------------------------------

  /** The position of the first configuration entry for `resourceType`, if
      there is one. */
  function FirstEntryIndex(entries: seq<ImportantAttribute>, resourceType: string): (r: Option<nat>)
    ensures r.Some? ==> r.value < |entries| && entries[r.value].name == resourceType
    ensures r.Some? ==> forall j :: 0 <= j < r.value ==> entries[j].name != resourceType
    ensures r.None? ==> forall j :: 0 <= j < |entries| ==> entries[j].name != resourceType
    decreases |entries|
  {
    if entries == [] then None
    else if entries[0].name == resourceType then Some(0)
    else
      match FirstEntryIndex(entries[1..], resourceType)
      case None => None
      case Some(k) => Some(k + 1)
  }

  /** One output line: `fmt.Sprintf("%s: %s", attr, value)`. */
  function Line(attr: string, value: string): string {
    attr + ": " + value
  }

  /** A line for each of `attrs` that `values` has, in the order of
      `attrs`. */
  function AttributeLines(attrs: seq<string>, values: map<string, string>): (r: seq<string>)
    ensures |r| <= |attrs|
    ensures r == [] <==> forall j :: 0 <= j < |attrs| ==> attrs[j] !in values
    decreases |attrs|
  {
    if attrs == [] then []
    else
      var init := attrs[..|attrs| - 1];
      var last := attrs[|attrs| - 1];
      var r := AttributeLines(init, values) + (if last in values then [Line(last, values[last])] else []);
      assert (forall j :: 0 <= j < |attrs| ==> attrs[j] !in values) <==>
             (forall j :: 0 <= j < |init| ==> init[j] !in values) && last !in values by {
        assert forall j :: 0 <= j < |init| ==> init[j] == attrs[j];
      }
      r
  }

  /** Every line is `attr: value` for a configured attribute the resource
      has, and every configured attribute the resource has gives its line. */
  lemma {:induction false} AttributeLinesMembers(attrs: seq<string>, values: map<string, string>)
    ensures forall line :: line in AttributeLines(attrs, values) ==>
              exists a :: a in attrs && a in values && line == Line(a, values[a])
    ensures forall a :: a in attrs && a in values ==> Line(a, values[a]) in AttributeLines(attrs, values)
    decreases |attrs|
  {
    if attrs != [] {
      var init := attrs[..|attrs| - 1];
      var last := attrs[|attrs| - 1];
      AttributeLinesMembers(init, values);
      assert attrs == init + [last];
      forall line | line in AttributeLines(attrs, values)
        ensures exists a :: a in attrs && a in values && line == Line(a, values[a])
      {
        if line in AttributeLines(init, values) {
          var a :| a in init && a in values && line == Line(a, values[a]);
          assert a in attrs;
        } else {
          assert last in attrs;
        }
      }
    }
  }

  /** The lines of GetImportantAttributes before the emptiness check: those
      of the first configuration entry for the resource's type, none when no
      entry matches. */
  function ImportantLines(resource: string, entries: seq<ImportantAttribute>, values: map<string, string>): seq<string> {
    match FirstEntryIndex(entries, FirstField(resource))
    case None => []
    case Some(k) => AttributeLines(entries[k].attributes, values)
  }

  /** The reference for GetImportantAttributes. */
  function ImportantAttributes(resource: string, cfg: Option<Config>, lookup: Lookup): Result<seq<string>, Error> {
    if cfg.None? then Failure(ConfigNotLoaded)
    else if lookup.Failure? then Failure(ResourceNotFound(resource, lookup.error))
    else
      var lines := ImportantLines(resource, cfg.value.importantAttributes, lookup.value);
      if lines == [] then Failure(NoImportantAttributes(resource)) else Success(lines)
  }

  /** The `attr: value` lines of the configured important attributes of a
      resource, from the first configuration entry for its type. */
  method GetImportantAttributes(resource: string, cfg: Option<Config>, lookup: Lookup) returns (r: Result<seq<string>, Error>)
    ensures r == ImportantAttributes(resource, cfg, lookup)
  {
    if cfg.None? {
      return Failure(ConfigNotLoaded);
    }
    if lookup.Failure? {
      return Failure(ResourceNotFound(resource, lookup.error));
    }
    var attributesMap := lookup.value;
    var resourceType := FirstField(resource);
    var entries := cfg.value.importantAttributes;
    var importantAttrs: seq<string> := [];
    var i := 0;
    while i < |entries|
      invariant 0 <= i <= |entries|
      invariant forall j :: 0 <= j < i ==> entries[j].name != resourceType
      invariant importantAttrs == []
    {
      var resConfig := entries[i];
      if resConfig.name == resourceType {
        var attrs := resConfig.attributes;
        for j := 0 to |attrs|
          invariant importantAttrs == AttributeLines(attrs[..j], attributesMap)
        {
          assert attrs[..j + 1][..j] == attrs[..j];
          var attr := attrs[j];
          if attr in attributesMap {
            importantAttrs := importantAttrs + [Line(attr, attributesMap[attr])];
          }
        }
        assert attrs[..|attrs|] == attrs;
        assert FirstEntryIndex(entries, resourceType) == Some(i) by {
          FirstEntryIndexAt(entries, resourceType, i);
        }
        break;
      }
      i := i + 1;
    }
    if |importantAttrs| == 0 {
      return Failure(NoImportantAttributes(resource));
    }
    return Success(importantAttrs);
  }

  /** The first matching entry is the one FirstEntryIndex finds. */
  lemma {:induction false} FirstEntryIndexAt(entries: seq<ImportantAttribute>, resourceType: string, i: nat)
    requires i < |entries| && entries[i].name == resourceType
    requires forall j :: 0 <= j < i ==> entries[j].name != resourceType
    ensures FirstEntryIndex(entries, resourceType) == Some(i)
    decreases i
  {
    if i > 0 {
      FirstEntryIndexAt(entries[1..], resourceType, i - 1);
    }
  }

  /** GetImportantAttributes fails with ConfigNotLoaded without a
      configuration, and with ResourceNotFound when the lookup fails. */
  lemma ImportantAttributesErrors(resource: string, cfg: Option<Config>, lookup: Lookup)
    ensures cfg.None? ==> ImportantAttributes(resource, cfg, lookup) == Failure(ConfigNotLoaded)
    ensures cfg.Some? && lookup.Failure? ==>
              ImportantAttributes(resource, cfg, lookup) == Failure(ResourceNotFound(resource, lookup.error))
  {
  }

  /** A successful GetImportantAttributes returns between one line and as
      many lines as the first entry for the resource's type lists, each
      `attr: value` for a listed attribute the resource has; it fails with
      NoImportantAttributes exactly when no entry matches or the resource
      has none of the entry's attributes. */
  lemma ImportantAttributesOutcome(resource: string, c: Config, values: map<string, string>)
    ensures var r := ImportantAttributes(resource, Some(c), Success(values));
      var found := FirstEntryIndex(c.importantAttributes, FirstField(resource));
      && (r.Success? ==>
            && found.Some?
            && 0 < |r.value| <= |c.importantAttributes[found.value].attributes|
            && forall line :: line in r.value ==>
                 exists a :: a in c.importantAttributes[found.value].attributes && a in values && line == Line(a, values[a]))
      && (r.Failure? <==>
            || found.None?
            || forall j :: 0 <= j < |c.importantAttributes[found.value].attributes| ==>
                 c.importantAttributes[found.value].attributes[j] !in values)
      && (r.Failure? ==> r.error == NoImportantAttributes(resource))
  {
    var found := FirstEntryIndex(c.importantAttributes, FirstField(resource));
    if found.Some? {
      AttributeLinesMembers(c.importantAttributes[found.value].attributes, values);
    }
  }
}
