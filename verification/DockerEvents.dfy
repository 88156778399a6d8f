/** The container registry: hostnames of containers, and the start, stop and die events that update it. */
module DockerEvents {
  import opened Wrappers
  import opened GoStrings
  import opened DockerNetwork
  import opened Lru

  /** What the daemon tells about a container. */
  datatype Inspection = Inspection(
    name: string, hostname: string, domainname: string, env: seq<string>, labels: map<string, string>,
    networks: map<string, Endpoint>, ipAddress: string)

  /** The settings that matter here. */
  datatype Conf = Conf(registerContainerNames: bool, domain: string)

  const SERVICE_LABEL := "com.docker.compose.service"
  const NETWORK_LABEL := "dps.network"
  const HOSTNAMES_ENV := "HOSTNAMES="

  // ---- Hostnames ----

  function GetContainerHostname(i: Inspection): seq<string> {
    if i.hostname == "" then []
    else if i.domainname != "" then [i.hostname + "." + i.domainname]
    else [i.hostname]
  }

  /** The first variable with the prefix counts. */
  function GetHostnamesFromEnv(env: seq<string>): seq<string> {
    if env == [] then []
    else if HasPrefix(env[0], HOSTNAMES_ENV) then Split(env[0][|HOSTNAMES_ENV|..], ',')
    else GetHostnamesFromEnv(env[1..])
  }

  /** Names joined by commas in the variable come out as they went in, wherever it stands among others. */
  lemma {:induction false} EnvHostnames(before: seq<string>, names: seq<string>, after: seq<string>)
    requires names != [] && forall i :: 0 <= i < |names| ==> ',' !in names[i]
    requires forall i :: 0 <= i < |before| ==> !HasPrefix(before[i], HOSTNAMES_ENV)
    ensures GetHostnamesFromEnv(before + [HOSTNAMES_ENV + Join(names, ',')] + after) == names
  {
    var variable := HOSTNAMES_ENV + Join(names, ',');
    var env := before + [variable] + after;
    if before == [] {
      assert env[0] == variable && variable[..|HOSTNAMES_ENV|] == HOSTNAMES_ENV;
      assert variable[|HOSTNAMES_ENV|..] == Join(names, ',');
      SplitOfJoin(names, ',');
    } else {
      EnvHostnames(before[1..], names, after);
      assert env[0] == before[0] && env[1..] == before[1..] + [variable] + after;
    }
  }

  function GetHostnameFromServiceName(i: Inspection, conf: Conf): seq<string> {
    if SERVICE_LABEL in i.labels then [i.labels[SERVICE_LABEL] + "." + conf.domain] else []
  }

  /** The name comes with a leading slash, which is cut off; an empty name panics. */
  function GetHostnames(i: Inspection, conf: Conf): Outcome<seq<string>> {
    var own := GetContainerHostname(i) + GetHostnamesFromEnv(i.env);
    if !conf.registerContainerNames then Ok(own)
    else if i.name == "" then Panic
    else Ok(own + [i.name[1..] + "." + conf.domain] + GetHostnameFromServiceName(i, conf))
  }

  /** The names a container goes by: its host name, those in its first variable for them, its own, its service's. */
  ghost predicate NamedBy(i: Inspection, conf: Conf, h: string) {
    || (i.hostname != "" && h == if i.domainname == "" then i.hostname else i.hostname + "." + i.domainname)
    || ListedIn(i.env, h)
    || (conf.registerContainerNames && i.name != "" && h == i.name[1..] + "." + conf.domain)
    || (conf.registerContainerNames && "com.docker.compose.service" in i.labels &&
        h == i.labels["com.docker.compose.service"] + "." + conf.domain)
  }

  /** Between commas in the first variable that starts with `HOSTNAMES=`. */
  ghost predicate ListedIn(env: seq<string>, h: string) {
    exists k ::
      && 0 <= k < |env| && IsVariable(env[k]) && IsPiece(env[k][10..], ',', h)
      && forall j :: 0 <= j < k ==> !IsVariable(env[j])
  }

  predicate IsVariable(s: string) {
    |s| >= 10 && s[..10] == "HOSTNAMES="
  }

  lemma {:induction false} ListedAre(env: seq<string>, h: string)
    ensures h in GetHostnamesFromEnv(env) <==> ListedIn(env, h)
  {
    if env != [] {
      var rest := env[1..];
      if IsVariable(env[0]) {
        SplitPieces(env[0][10..], ',', h);
      } else {
        ListedAre(rest, h);
        if k :| 0 <= k < |rest| && IsVariable(rest[k]) && IsPiece(rest[k][10..], ',', h) &&
                forall j :: 0 <= j < k ==> !IsVariable(rest[j]) {
          assert env[k + 1] == rest[k] && forall j :: 1 <= j < k + 1 ==> env[j] == rest[j - 1];
        }
        if k :| 0 <= k < |env| && IsVariable(env[k]) && IsPiece(env[k][10..], ',', h) &&
                forall j :: 0 <= j < k ==> !IsVariable(env[j]) {
          assert rest[k - 1] == env[k] && forall j :: 0 <= j < k - 1 ==> rest[j] == env[j + 1];
        }
      }
    }
  }

  /** Exactly these names are registered and removed; an empty container name that should be one panics. */
  lemma HostnamesAre(i: Inspection, conf: Conf)
    ensures GetHostnames(i, conf).Panic? <==> conf.registerContainerNames && i.name == ""
    ensures GetHostnames(i, conf).Ok? ==> forall h :: h in GetHostnames(i, conf).value <==> NamedBy(i, conf, h)
  {
    forall h
      ensures h in GetHostnamesFromEnv(i.env) <==> ListedIn(i.env, h)
    {
      ListedAre(i.env, h);
    }
  }

  // ---- The registry object ----

  function PutAll(s: Store<string>, size: nat, hosts: seq<string>, ip: string): Store<string> {
    if hosts == [] then s else Added(PutAll(s, size, hosts[..|hosts| - 1], ip), size, hosts[|hosts| - 1], ip)
  }

  function RemoveAll(s: Store<string>, hosts: seq<string>): Store<string> {
    if hosts == [] then s else Deleted(RemoveAll(s, hosts[..|hosts| - 1]), hosts[|hosts| - 1])
  }

  const DPS_NETWORK := "dps"

  function LabelOf(labels: map<string, string>, key: string): string {
    if key in labels then labels[key] else ""
  }

  function PreferredNetworks(i: Inspection): seq<string> {
    [LabelOf(i.labels, NETWORK_LABEL), DPS_NETWORK, "bridge"]
  }

  predicate AddressedOn(i: Inspection, network: string) {
    network in i.networks && i.networks[network].ipAddress != ""
  }

  /** The network the container's label names; without a label the nameless one. */
  function LabelledNetwork(i: Inspection): string {
    if "dps.network" in i.labels then i.labels["dps.network"] else ""
  }

  /**
   The addresses a container may be registered with: that on the network its label names, else on `dps`, else on
   `bridge`, else whatever the other networks and the container itself offer.
   */
  ghost predicate BestIp(i: Inspection, drivers: Drivers, ip: string) {
    if AddressedOn(i, LabelledNetwork(i)) then ip == i.networks[LabelledNetwork(i)].ipAddress
    else if AddressedOn(i, "dps") then ip == i.networks["dps"].ipAddress
    else if AddressedOn(i, "bridge") then ip == i.networks["bridge"].ipAddress
    else DriversKnown(i.networks, drivers) && FallbackIp(i.networks, drivers, i.ipAddress, ip)
  }

  lemma PreferredChoice(i: Inspection)
    ensures PreferredIp(i.networks, PreferredNetworks(i)) ==
            if AddressedOn(i, LabelledNetwork(i)) then Some(i.networks[LabelledNetwork(i)].ipAddress)
            else if AddressedOn(i, "dps") then Some(i.networks["dps"].ipAddress)
            else if AddressedOn(i, "bridge") then Some(i.networks["bridge"].ipAddress)
            else None
  {
    var p := PreferredNetworks(i);
    assert p[1..] == ["dps", "bridge"] && p[1..][1..] == ["bridge"] && p[1..][1..][1..] == [];
    assert PreferredIp(i.networks, ["bridge"]) ==
           if AddressedOn(i, "bridge") then Some(i.networks["bridge"].ipAddress) else None;
    assert PreferredIp(i.networks, p) == if AddressedOn(i, p[0]) then Some(i.networks[p[0]].ipAddress)
                                         else PreferredIp(i.networks, p[1..]);
  }

  /** No preferred network has an address and some network's driver is not known. */
  ghost predicate Unaddressed(i: Inspection, drivers: Drivers) {
    && !AddressedOn(i, LabelledNetwork(i)) && !AddressedOn(i, "dps") && !AddressedOn(i, "bridge")
    && !DriversKnown(i.networks, drivers)
  }

  class ContainerRegistry {
    const c: LRUCache<string>

    constructor ()
      ensures fresh(c) && c.Valid() && c.size == 43690 && c.entries == map[]
    {
      c := new LRUCache<string>(43690);
    }

    method PutHostnames(predefinedHosts: seq<string>, inspect: Inspection, drivers: Drivers)
      returns (r: Outcome<string>)
      requires c.Valid()
      modifies c
      ensures c.Valid()
      ensures r.Ok? ==> BestIp(inspect, drivers, r.value) &&
                        c.View() == PutAll(old(c.View()), c.size, predefinedHosts, r.value)
      ensures !r.Ok? ==> r.Panic? && unchanged(c)
      ensures r.Panic? <==> Unaddressed(inspect, drivers)
    {
      PreferredChoice(inspect);
      r := FindBestIpForNetworks(inspect.networks, inspect.ipAddress, drivers, PreferredNetworks(inspect));
      if !r.Ok? {
        return;
      }
      for k := 0 to |predefinedHosts|
        invariant c.Valid() && c.View() == PutAll(old(c.View()), c.size, predefinedHosts[..k], r.value)
      {
        assert predefinedHosts[..k + 1][..k] == predefinedHosts[..k];
        c.Put(predefinedHosts[k], r.value);
      }
      assert predefinedHosts[..|predefinedHosts|] == predefinedHosts;
    }

    /**
     One event. The hostnames are those of the first inspection, the address that of a second one made after
     the container was connected to the network. No inspection: the daemon failed, at connecting or inspecting.
     */
    method HandleEvent(action: string, first: Option<Inspection>, conf: Conf, second: Option<Inspection>,
                       drivers: Drivers)
      returns (r: Outcome<string>)
      requires c.Valid()
      modifies c
      ensures c.Valid() && !r.Error?
      ensures r.Panic? <==> first.None? || GetHostnames(first.value, conf).Panic? ||
                            (action == "start" && (second.None? || Unaddressed(second.value, drivers)))
      ensures r.Panic? ==> unchanged(c)
      ensures r.Ok? ==>
                var hostnames := GetHostnames(first.value, conf).value;
                if action == "start" then
                  BestIp(second.value, drivers, r.value) &&
                  c.View() == PutAll(old(c.View()), c.size, hostnames, r.value)
                else if action == "stop" || action == "die" then c.View() == RemoveAll(old(c.View()), hostnames)
                else unchanged(c)
    {
      r := Ok("");
      if first.None? || !GetHostnames(first.value, conf).Ok? {
        return Panic;
      }
      var hostnames := GetHostnames(first.value, conf).value;
      if action == "start" {
        if second.None? {
          return Panic;
        }
        r := PutHostnames(hostnames, second.value, drivers);
      } else if action == "stop" || action == "die" {
        for k := 0 to |hostnames|
          invariant c.Valid() && c.View() == RemoveAll(old(c.View()), hostnames[..k])
        {
          assert hostnames[..k + 1][..k] == hostnames[..k];
          c.Remove(hostnames[k]);
        }
        assert hostnames[..|hostnames|] == hostnames;
      }
    }
  }
}
