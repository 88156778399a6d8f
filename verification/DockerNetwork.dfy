/** Choosing a container's address among the networks it is attached to. */
module DockerNetwork {
  import opened Wrappers

  datatype Endpoint = Endpoint(ipAddress: string, networkId: string)

  datatype CompleteNetwork = CompleteNetwork(ipAddress: string, networkId: string, driver: string)

  function GetDriverOrder(driver: string): nat {
    if driver == "bridge" then 0 else 1
  }

  function GetIPFromNetworksMap(networks: map<string, Endpoint>, key: string): string {
    if key in networks then networks[key].ipAddress else ""
  }

  // ---- What may be chosen ----

  /** The first preferred network with an address. */
  function PreferredIp(networks: map<string, Endpoint>, preferred: seq<string>): Option<string> {
    if preferred == [] then None
    else if GetIPFromNetworksMap(networks, preferred[0]) != "" then Some(networks[preferred[0]].ipAddress)
    else PreferredIp(networks, preferred[1..])
  }

  /** Network drivers by network id, as far as the daemon knows them. */
  type Drivers = map<string, string>

  ghost predicate DriversKnown(networks: map<string, Endpoint>, drivers: Drivers) {
    forall k :: k in networks ==> networks[k].networkId in drivers
  }

  predicate IsBridge(e: Endpoint, drivers: Drivers) {
    e.networkId in drivers && drivers[e.networkId] == "bridge"
  }

  predicate HasAddress(e: Endpoint) {
    e.ipAddress != ""
  }

  ghost predicate AddressOfSome(networks: map<string, Endpoint>, fits: Endpoint -> bool, ip: string) {
    exists k :: k in networks && fits(networks[k]) && networks[k].ipAddress == ip
  }

  /** A bridge network's address if one has any, else any network's, else the container's own. */
  ghost predicate FallbackIp(networks: map<string, Endpoint>, drivers: Drivers, own: string, ip: string) {
    if exists k :: k in networks && HasAddress(networks[k]) && IsBridge(networks[k], drivers)
    then AddressOfSome(networks, e => HasAddress(e) && IsBridge(e, drivers), ip)
    else if exists k :: k in networks && HasAddress(networks[k])
    then AddressOfSome(networks, HasAddress, ip)
    else ip == own
  }

  // ---- Sorting ----

  predicate SortedByDriver(networks: seq<CompleteNetwork>) {
    forall i, j :: 0 <= i < j < |networks| ==> GetDriverOrder(networks[i].driver) <= GetDriverOrder(networks[j].driver)
  }

  /** Sorted but for position `j`, which has only been moved past larger ones. */
  ghost predicate Inserting(s: seq<CompleteNetwork>, j: nat) {
    forall k, l :: 0 <= k < l < |s| && l != j ==> GetDriverOrder(s[k].driver) <= GetDriverOrder(s[l].driver)
  }

  method SwapDown(a: array<CompleteNetwork>, j: nat)
    requires 0 < j < a.Length
    modifies a
    ensures a[..] == old(a[..])[j := old(a[j - 1])][j - 1 := old(a[j])]
    ensures multiset(a[..]) == multiset(old(a[..]))
  {
    a[j], a[j - 1] := a[j - 1], a[j];
  }

  lemma SwapKeepsInserting(s: seq<CompleteNetwork>, j: nat, i: nat)
    requires 0 < j <= i < |s| && Inserting(s[..i + 1], j)
    requires GetDriverOrder(s[j].driver) < GetDriverOrder(s[j - 1].driver)
    ensures Inserting(s[j := s[j - 1]][j - 1 := s[j]][..i + 1], j - 1)
  {
    var t, u := s[..i + 1], s[j := s[j - 1]][j - 1 := s[j]][..i + 1];
    forall k, l | 0 <= k < l < |u| && l != j - 1
      ensures GetDriverOrder(u[k].driver) <= GetDriverOrder(u[l].driver)
    {
      var k' := if k == j then j - 1 else if k == j - 1 then j else k;
      assert u[k] == t[k'];
      if l == j {
        assert u[l] == t[j - 1];
      } else {
        assert u[l] == t[l];
      }
    }
  }

  /** In place, by swapping neighbours; callers rely only on order and contents, not on stability. */
  method SortByDriver(a: array<CompleteNetwork>)
    modifies a
    ensures SortedByDriver(a[..])
    ensures multiset(a[..]) == multiset(old(a[..]))
  {
    for i := 0 to a.Length
      invariant SortedByDriver(a[..i])
      invariant multiset(a[..]) == multiset(old(a[..]))
    {
      var j := i;
      while j > 0 && GetDriverOrder(a[j].driver) < GetDriverOrder(a[j - 1].driver)
        invariant 0 <= j <= i
        invariant multiset(a[..]) == multiset(old(a[..]))
        invariant Inserting(a[..i + 1], j)
      {
        SwapKeepsInserting(a[..], j, i);
        assert a[..][..i + 1] == a[..i + 1];
        SwapDown(a, j);
        assert a[..][..i + 1] == a[..i + 1];
        j := j - 1;
      }
      InsertedIsSorted(a[..i + 1], j);
    }
    assert a[..a.Length] == a[..];
  }

  lemma InsertedIsSorted(s: seq<CompleteNetwork>, j: nat)
    requires j < |s| && Inserting(s, j)
    requires j > 0 ==> GetDriverOrder(s[j - 1].driver) <= GetDriverOrder(s[j].driver)
    ensures SortedByDriver(s)
  {
    forall k | 0 <= k < j
      ensures GetDriverOrder(s[k].driver) <= GetDriverOrder(s[j].driver)
    {
      assert k < j - 1 ==> GetDriverOrder(s[k].driver) <= GetDriverOrder(s[j - 1].driver);
    }
  }

  // ---- The choice ----

  /** The values of the map in some order. */
  method MapValues(endpointsMap: map<string, Endpoint>) returns (values: seq<Endpoint>)
    ensures forall e :: e in values <==> exists k :: k in endpointsMap && endpointsMap[k] == e
  {
    values := [];
    var left := endpointsMap.Keys;
    while left != {}
      invariant left <= endpointsMap.Keys
      invariant forall e :: e in values <==> exists k :: k in endpointsMap && k !in left && endpointsMap[k] == e
      decreases |left|
    {
      var k :| k in left;
      left := left - {k};
      values := values + [endpointsMap[k]];
    }
  }

  function Complete(e: Endpoint, drivers: Drivers): CompleteNetwork
    requires e.networkId in drivers
  {
    CompleteNetwork(e.ipAddress, e.networkId, drivers[e.networkId])
  }

  /** Looks up every network's driver; an unknown network panics. */
  method ConstructCompleteNetwork(endpoints: seq<Endpoint>, drivers: Drivers)
    returns (r: Outcome<array<CompleteNetwork>>)
    ensures r.Ok? <==> forall e :: e in endpoints ==> e.networkId in drivers
    ensures !r.Ok? ==> r.Panic?
    ensures r.Ok? ==> fresh(r.value) && r.value.Length == |endpoints| &&
                      forall i :: 0 <= i < |endpoints| ==>
                        endpoints[i].networkId in drivers && r.value[i] == Complete(endpoints[i], drivers)
  {
    var completed := new CompleteNetwork[|endpoints|](_ => CompleteNetwork("", "", ""));
    for i := 0 to |endpoints|
      invariant forall j :: 0 <= j < i ==>
                  endpoints[j].networkId in drivers && completed[j] == Complete(endpoints[j], drivers)
    {
      if endpoints[i].networkId !in drivers {
        return Panic;
      }
      completed[i] := Complete(endpoints[i], drivers);
    }
    r := Ok(completed);
  }

  /** First address in a sorted list: a bridge's whenever a bridge has one. */
  lemma FirstOfSorted(sorted: seq<CompleteNetwork>, i: nat)
    requires SortedByDriver(sorted) && i < |sorted| && sorted[i].ipAddress != ""
    requires forall j :: 0 <= j < i ==> sorted[j].ipAddress == ""
    ensures (exists n :: n in sorted && n.ipAddress != "" && n.driver == "bridge") ==> sorted[i].driver == "bridge"
  {
  }

  /** The sorted networks are the endpoints of the map, with their drivers. */
  ghost predicate Describes(sorted: seq<CompleteNetwork>, networks: map<string, Endpoint>, drivers: Drivers) {
    && DriversKnown(networks, drivers)
    && (forall k :: k in networks ==> Complete(networks[k], drivers) in sorted)
    && (forall n :: n in sorted ==> exists k :: k in networks && Complete(networks[k], drivers) == n)
  }

  lemma SortedChoice(sorted: seq<CompleteNetwork>, networks: map<string, Endpoint>, drivers: Drivers, own: string,
                     i: nat)
    requires SortedByDriver(sorted) && Describes(sorted, networks, drivers)
    requires i <= |sorted| && forall j :: 0 <= j < i ==> sorted[j].ipAddress == ""
    requires i < |sorted| ==> sorted[i].ipAddress != ""
    ensures FallbackIp(networks, drivers, own, if i < |sorted| then sorted[i].ipAddress else own)
  {
    if i < |sorted| {
      FirstOfSorted(sorted, i);
      var n := sorted[i];
      assert n in sorted;
      var k :| k in networks && Complete(networks[k], drivers) == n;
      assert HasAddress(networks[k]);
      if exists l :: l in networks && HasAddress(networks[l]) && IsBridge(networks[l], drivers) {
        var l :| l in networks && HasAddress(networks[l]) && IsBridge(networks[l], drivers);
        assert Complete(networks[l], drivers) in sorted;
        assert IsBridge(networks[k], drivers);
      }
    } else {
      forall k | k in networks
        ensures !HasAddress(networks[k])
      {
        assert Complete(networks[k], drivers) in sorted;
      }
    }
  }

  /** The map's networks, each with its driver. */
  method CompleteAll(networks: map<string, Endpoint>, drivers: Drivers) returns (r: Outcome<array<CompleteNetwork>>)
    ensures r.Ok? <==> DriversKnown(networks, drivers)
    ensures !r.Ok? ==> r.Panic?
    ensures r.Ok? ==> fresh(r.value) && Describes(r.value[..], networks, drivers)
  {
    var endpoints := MapValues(networks);
    assert forall k :: k in networks ==> networks[k] in endpoints;
    r := ConstructCompleteNetwork(endpoints, drivers);
    if r.Ok? {
      AllCompleted(r.value[..], endpoints, networks, drivers);
    }
  }

  /** The first address after sorting, or the container's own. */
  method SortAndScan(a: array<CompleteNetwork>, networks: map<string, Endpoint>, own: string, drivers: Drivers)
    returns (ip: string)
    requires Describes(a[..], networks, drivers)
    modifies a
    ensures FallbackIp(networks, drivers, own, ip)
  {
    ghost var before := a[..];
    SortByDriver(a);
    ghost var sorted := a[..];
    SameContents(before, sorted);
    for i := 0 to a.Length
      invariant a[..] == sorted && forall j :: 0 <= j < i ==> sorted[j].ipAddress == ""
    {
      assert a[i] == sorted[i];
      if a[i].ipAddress != "" {
        SortedChoice(sorted, networks, drivers, own, i);
        return a[i].ipAddress;
      }
    }
    SortedChoice(sorted, networks, drivers, own, a.Length);
    ip := own;
  }

  /**
   The first preferred network with an address; failing that, whatever order the map yields and the sort
   leaves among equals, a bridge network's address, then any network's, then the container's own.
   */
  method FindBestIpForNetworks(networks: map<string, Endpoint>, own: string, drivers: Drivers, preferred: seq<string>)
    returns (r: Outcome<string>)
    ensures PreferredIp(networks, preferred).Some? ==> r == Ok(PreferredIp(networks, preferred).value)
    ensures PreferredIp(networks, preferred).None? ==>
              if DriversKnown(networks, drivers) then r.Ok? && FallbackIp(networks, drivers, own, r.value) else r.Panic?
  {
    for i := 0 to |preferred|
      invariant PreferredIp(networks, preferred) == PreferredIp(networks, preferred[i..])
    {
      assert preferred[i..][1..] == preferred[i + 1..];
      var ip := GetIPFromNetworksMap(networks, preferred[i]);
      if ip != "" {
        return Ok(ip);
      }
    }
    var completed := CompleteAll(networks, drivers);
    if !completed.Ok? {
      return Panic;
    }
    var ip := SortAndScan(completed.value, networks, own, drivers);
    r := Ok(ip);
  }

  lemma AllCompleted(completed: seq<CompleteNetwork>, endpoints: seq<Endpoint>, networks: map<string, Endpoint>,
                     drivers: Drivers)
    requires |completed| == |endpoints|
    requires forall e :: e in endpoints <==> exists k :: k in networks && networks[k] == e
    requires forall i :: 0 <= i < |endpoints| ==>
               endpoints[i].networkId in drivers && completed[i] == Complete(endpoints[i], drivers)
    ensures Describes(completed, networks, drivers)
  {
    forall k | k in networks
      ensures networks[k].networkId in drivers && Complete(networks[k], drivers) in completed
    {
      assert networks[k] in endpoints;
      var i :| 0 <= i < |endpoints| && endpoints[i] == networks[k];
      assert completed[i] in completed;
    }
    forall n | n in completed
      ensures exists k :: k in networks && Complete(networks[k], drivers) == n
    {
      var i :| 0 <= i < |completed| && completed[i] == n;
      assert endpoints[i] in endpoints;
    }
  }

  lemma SameContents(a: seq<CompleteNetwork>, b: seq<CompleteNetwork>)
    requires multiset(a) == multiset(b)
    ensures forall n :: n in a <==> n in b
  {
    forall n
      ensures n in a <==> n in b
    {
      assert n in multiset(a) <==> n in a;
      assert n in multiset(b) <==> n in b;
    }
  }
}
