/** The OpenStack Swift backend's pure logic: URL joining, the object
    name prefix, the option checks of the constructor, the choice of the
    storage endpoint from the identity service's catalog, and the paged
    listing. Catalogs and listing pages are inputs. */
module OpenStack {
  import opened Common

  const PageLimit: int := 500

  /** JoinUrls(uri, fragment): exactly one '/' is inserted unless `uri`
      already ends with one, and one leading '/' of the fragment is
      dropped; a null fragment counts as "". */
  function JoinUrls(uri: string, fragment: Option<string>): (r: string)
    ensures StartsWith(r, uri)
    ensures var f := if fragment.Some? then fragment.value else "";
      var tail := if StartsWith(f, "/") then f[1..] else f;
      EndsWith(r, tail) && |r| == |uri| + (if EndsWith(uri, "/") then 0 else 1) + |tail|
    ensures !EndsWith(uri, "/") ==> r[|uri|] == '/'
  {
    var f := if fragment.Some? then fragment.value else "";
    var tail := if StartsWith(f, "/") then f[1..] else f;
    var r := uri + (if EndsWith(uri, "/") then "" else "/") + tail;
    assert r[..|uri|] == uri;
    assert r[|r| - |tail|..] == tail;
    r
  }

  /** The three-argument JoinUrls is the nested join. */
  function JoinUrls3(uri: string, fragment1: Option<string>, fragment2: Option<string>): (r: string)
    ensures StartsWith(r, uri)
  {
    var r := JoinUrls(JoinUrls(uri, fragment1), fragment2);
    assert r[..|uri|] == JoinUrls(uri, fragment1)[..|uri|];
    r
  }

  /** For a plain container and object name the nested join puts them
      one '/' apart after the endpoint. */
  lemma JoinUrls3Plain(uri: string, container: string, name: string)
    requires !EndsWith(uri, "/") && container != [] && !EndsWith(container, "/")
    requires !StartsWith(container, "/") && !StartsWith(name, "/")
    ensures JoinUrls3(uri, Some(container), Some(name)) == uri + "/" + container + "/" + name
  {
    var j := JoinUrls(uri, Some(container));
    assert j == uri + "/" + container;
    assert !EndsWith(j, "/") by {
      assert j[|j| - 1] == container[|container| - 1];
      assert container[|container| - 1..] == [container[|container| - 1]];
    }
  }

  /** The object name prefix: "/" + path with a trailing '/', whose
      leading '/' is then dropped. */
  function Prefix(path: string): (p: string)
    ensures "/" + p == AppendDirSeparator("/" + path)
    ensures EndsWith(p, "/") || p == ""
  {
    var full := AppendDirSeparator("/" + path);
    assert full[0] == '/';
    var p := full[1..];
    assert "/" + p == full;
    assert |p| > 0 ==> p[|p| - 1..] == full[|full| - 1..];
    p
  }

  lemma PrefixExamples()
    ensures Prefix("") == "" && Prefix("a") == "a/" && Prefix("a/") == "a/"
  {
    assert EndsWith("/", "/");
    assert !EndsWith("/a", "/");
    assert EndsWith("/a/", "/");
    assert ("/a" + "/")[1..] == "a/";
  }

  /** A blank (null, empty or white-space) option. */
  predicate Blank(options: map<string, string>, key: string) {
    IsNullOrWhiteSpace(Lookup(options, key))
  }

  /** The constructor's option check: the first missing option, if any.
      User name and auth URI are always needed; "v3" needs password,
      domain and tenant; other versions need password and tenant unless
      an API key is given. */
  function MissingOption(options: map<string, string>): (r: Option<string>)
    ensures r.None? <==>
              !Blank(options, "auth-username") && !Blank(options, "openstack-authuri")
              && (Lookup(options, "openstack-version") == Some("v3") ==>
                    !Blank(options, "auth-password") && !Blank(options, "openstack-domain-name")
                    && !Blank(options, "openstack-tenant-name"))
              && (Lookup(options, "openstack-version") != Some("v3") && Blank(options, "openstack-apikey") ==>
                    !Blank(options, "auth-password") && !Blank(options, "openstack-tenant-name"))
    ensures r.Some? ==> Blank(options, r.value)
    ensures Blank(options, "auth-username") ==> r == Some("auth-username")
    ensures Lookup(options, "openstack-version") != Some("v3") ==> r != Some("openstack-domain-name")
  {
    if Blank(options, "auth-username") then Some("auth-username")
    else if Blank(options, "openstack-authuri") then Some("openstack-authuri")
    else if Lookup(options, "openstack-version") == Some("v3") then
      if Blank(options, "auth-password") then Some("auth-password")
      else if Blank(options, "openstack-domain-name") then Some("openstack-domain-name")
      else if Blank(options, "openstack-tenant-name") then Some("openstack-tenant-name")
      else None
    else if Blank(options, "openstack-apikey") then
      if Blank(options, "auth-password") then Some("auth-password")
      else if Blank(options, "openstack-tenant-name") then Some("openstack-tenant-name")
      else None
    else None
  }

  /** A catalog endpoint: its interface (Keystone v3 only), region and
      URL (the v3 "url" or the v2 "publicURL"). */
  datatype Endpoint = Endpoint(interfaceName: Option<string>, region: Option<string>, url: string)
  datatype Service = Service(serviceType: Option<string>, endpoints: seq<Endpoint>)

  datatype EndpointFailure = NoObjectStore | NoEndpoint

  predicate IsObjectStore(s: Service) {
    s.serviceType.Some? && EqualsIgnoreCase(s.serviceType.value, "object-store")
  }

  /** The endpoint the identity reply is searched for: the configured
      region (string.Equals, so two nulls match) and, for Keystone v3,
      the "public" interface. */
  predicate Wanted(e: Endpoint, region: Option<string>, keystone3: bool) {
    e.region == region
    && (keystone3 ==> e.interfaceName.Some? && EqualsIgnoreCase(e.interfaceName.value, "public"))
  }

  /** The URL picked from a service's endpoints: the first wanted one,
      else the first one. */
  predicate ChosenUrl(es: seq<Endpoint>, region: Option<string>, keystone3: bool, url: string) {
    (exists i :: 0 <= i < |es| && Wanted(es[i], region, keystone3) && url == es[i].url
       && forall j :: 0 <= j < i ==> !Wanted(es[j], region, keystone3))
    || (es != [] && (forall i :: 0 <= i < |es| ==> !Wanted(es[i], region, keystone3)) && url == es[0].url)
  }

  /** The storage endpoint: within the first object-store service, the
      first wanted endpoint, else the service's first endpoint. */
  function SelectEndpoint(catalog: seq<Service>, region: Option<string>, keystone3: bool): (r: Result<string, EndpointFailure>)
  {
    var k := FirstIndex(catalog, IsObjectStore);
    if k.None? then Err(NoObjectStore)
    else
      var es := catalog[k.value].endpoints;
      var i := FirstIndex(es, e => Wanted(e, region, keystone3));
      if i.Some? then Ok(es[i.value].url)
      else if es == [] then Err(NoEndpoint)
      else Ok(es[0].url)
  }

  /** No object-store service in the catalog is the only reason for
      NoObjectStore. */
  lemma SelectEndpointNoService(catalog: seq<Service>, region: Option<string>, keystone3: bool)
    ensures SelectEndpoint(catalog, region, keystone3) == Err(NoObjectStore) <==>
              forall j :: 0 <= j < |catalog| ==> !IsObjectStore(catalog[j])
  {
  }

  /** The URL chosen comes from the first object-store service. */
  lemma SelectEndpointChosen(catalog: seq<Service>, region: Option<string>, keystone3: bool)
    requires SelectEndpoint(catalog, region, keystone3).Ok?
    ensures var k := FirstIndex(catalog, IsObjectStore);
      k.Some? && ChosenUrl(catalog[k.value].endpoints, region, keystone3, SelectEndpoint(catalog, region, keystone3).value)
  {
    var k := FirstIndex(catalog, IsObjectStore);
    var es := catalog[k.value].endpoints;
    var w := e => Wanted(e, region, keystone3);
    var i := FirstIndex(es, w);
    var url := SelectEndpoint(catalog, region, keystone3).value;
    if i.Some? {
      var n := i.value;
      assert url == es[n].url && Wanted(es[n], region, keystone3);
      assert forall j :: 0 <= j < n ==> !Wanted(es[j], region, keystone3) by {
        assert forall j :: 0 <= j < n ==> !w(es[j]);
      }
    } else {
      assert url == es[0].url;
      assert forall j :: 0 <= j < |es| ==> !w(es[j]);
    }
  }

  /** An item of a container listing. */
  datatype StorageItem = StorageItem(name: string, lastModified: Option<int>, bytes: Option<int>)

  /** A listed file: a name only, a name and size, or name, size and
      modification time. */
  datatype FileEntry = FileEntry(name: string, size: Option<int>, modified: Option<int>)

  /** A name listed under the prefix loses the prefix; others stay. */
  function ListedName(prefix: string, name: string): (n: string)
    ensures StartsWith(name, prefix) ==> prefix + n == name
    ensures !StartsWith(name, prefix) ==> n == name
  {
    if StartsWith(name, prefix) then name[|prefix|..] else name
  }

  /** Objects are stored as prefix + name; the listing gives the name back. */
  lemma ListedNameAfterPut(prefix: string, name: string)
    ensures ListedName(prefix, prefix + name) == name
  {
    assert (prefix + name)[..|prefix|] == prefix;
  }

  function Entry(prefix: string, item: StorageItem): (e: FileEntry)
    ensures e.name == ListedName(prefix, item.name) && e.size == item.bytes
    ensures e.modified.Some? <==> item.bytes.Some? && item.lastModified.Some?
    ensures e.modified.Some? ==> e.modified == item.lastModified
  {
    var n := ListedName(prefix, item.name);
    if item.bytes.None? then FileEntry(n, None, None)
    else if item.lastModified.None? then FileEntry(n, item.bytes, None)
    else FileEntry(n, item.bytes, item.lastModified)
  }

  /** The entries of a run of listing pages. */
  function Entries(prefix: string, pages: seq<seq<StorageItem>>): (r: seq<FileEntry>)
  {
    if pages == [] then []
    else
      var last := pages[|pages| - 1];
      Entries(prefix, pages[..|pages| - 1]) + seq(|last|, i requires 0 <= i < |last| => Entry(prefix, last[i]))
  }

  /** ListEnumerableAsync: the pages are requested one after the other,
      the first without marker, every further one with the name of the
      previous page's last item as marker; a page with other than 500
      items is the last. `pages` are the server's replies in order;
      `complete` is false when they ran out before a short page. */
  method ListAll(prefix: string, pages: seq<seq<StorageItem>>)
    returns (markers: seq<Option<string>>, entries: seq<FileEntry>, complete: bool)
    ensures 0 < |markers| <= |pages| || (pages == [] && markers == [])
    ensures |markers| > 0 ==> markers[0] == None
    ensures forall k :: 0 < k < |markers| ==>
              |pages[k - 1]| == PageLimit && markers[k] == Some(pages[k - 1][PageLimit - 1].name)
    ensures entries == Entries(prefix, pages[..|markers|])
    ensures complete <==> |markers| > 0 && |pages[|markers| - 1]| != PageLimit
    ensures !complete ==> |markers| == |pages|
  {
    var marker: Option<string> := None;
    markers, entries := [], [];
    var i := 0;
    while i < |pages|
      invariant i == |markers| <= |pages|
      invariant entries == Entries(prefix, pages[..i])
      invariant forall k :: 0 <= k < i ==> |pages[k]| == PageLimit
      invariant i == 0 ==> marker == None
      invariant i > 0 ==> marker == Some(pages[i - 1][PageLimit - 1].name)
      invariant |markers| > 0 ==> markers[0] == None
      invariant forall k :: 0 < k < |markers| ==> markers[k] == Some(pages[k - 1][PageLimit - 1].name)
      decreases |pages| - i
    {
      var items := pages[i];
      markers := markers + [marker];
      assert pages[..i + 1][..i] == pages[..i];
      entries := entries + seq(|items|, j requires 0 <= j < |items| => Entry(prefix, items[j]));
      i := i + 1;
      if |items| != PageLimit {
        return markers, entries, true;
      }
      marker := Some(items[|items| - 1].name);
    }
    assert pages[..i] == pages;
    complete := false;
  }
}
