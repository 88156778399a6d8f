/** The version 1 file format: addresses as four bytes, no ports. */
module StorageV1 {
  import opened Wrappers
  import opened Outcomes
  import opened IpUtils
  import opened DnsServer
  import opened LocalVo

  datatype HostnameV1 = HostnameV1(
    id: int, hostname: string, ip: Quad, target: string, ttl: int, env: string, entryType: string)

  datatype EnvV1 = EnvV1(name: string, hostnames: seq<HostnameV1>)

  datatype ConfigurationV1 = ConfigurationV1(
    remoteDnsServers: seq<Quad>, envs: seq<EnvV1>, activeEnv: string, settings: Settings)

  // ---- Saving ----

  /** Panics on an address that does not parse; the env field is left empty. */
  function FromHostname(h: Hostname): Outcome<HostnameV1> {
    match ParseQuad(h.ip)
    case Ok(ip) => Ok(HostnameV1(h.id, h.hostname, ip, h.target, h.ttl, "", h.entryType))
    case _ => Panic
  }

  function FromEnv(e: Env): Outcome<EnvV1> {
    match MapAll(e.hostnames, FromHostname)
    case Ok(hostnames) => Ok(EnvV1(e.name, hostnames))
    case _ => Panic
  }

  function ValueOf(c: Config): Outcome<ConfigurationV1> {
    match (MapAll(c.envs, FromEnv), MapAll(c.remoteDnsServers, GetIpArray))
    case (Ok(envs), Ok(servers)) => Ok(ConfigurationV1(servers, envs, c.activeEnv, c.settings))
    case _ => Panic
  }

  method ToV1Envs(envs: seq<Env>) returns (r: Outcome<seq<EnvV1>>)
    ensures r == MapAll(envs, FromEnv)
  {
    r := FillAll(envs, FromEnv, EnvV1("", []));
  }

  method ToFile(c: Config) returns (r: Outcome<ConfigurationV1>)
    ensures r == ValueOf(c)
  {
    var envs := ToV1Envs(c.envs);
    if !envs.Ok? {
      return Panic;
    }
    var servers := ToIpsByteArray(c.remoteDnsServers);
    if !servers.Ok? {
      return Panic;
    }
    r := Ok(ConfigurationV1(servers.value, envs.value, c.activeEnv, c.settings));
  }

  // ---- Loading ----

  function ToHostname(h: HostnameV1): Hostname {
    Hostname(h.id, h.hostname, ToIpString(h.ip), h.target, h.ttl, h.entryType)
  }

  function ToEnv(e: EnvV1): Env {
    Env(e.name, MapSeq(e.hostnames, ToHostname))
  }

  function ToConfig(v: ConfigurationV1): Outcome<Config> {
    match MapAll(v.remoteDnsServers, ServerOfBytes)
    case Ok(servers) => Ok(Config(1, servers, MapSeq(v.envs, ToEnv), v.activeEnv, v.settings, None, None))
    case _ => Panic
  }

  method ToEnvs(v1Envs: seq<EnvV1>) returns (r: seq<Env>)
    ensures r == MapSeq(v1Envs, ToEnv)
  {
    r := FillEach(v1Envs, ToEnv, Env("", []));
  }

  method FromFile(v: ConfigurationV1) returns (r: Outcome<Config>)
    ensures r == ToConfig(v)
  {
    var envs := ToEnvs(v.envs);
    var servers := ByteArrayToDnsServer(v.remoteDnsServers);
    if !servers.Ok? {
      return Panic;
    }
    r := Ok(Config(1, servers.value, envs, v.activeEnv, v.settings, None, None));
  }

  // ---- Round trip ----

  function ClearHostname(h: HostnameV1): HostnameV1 {
    h.(env := "")
  }

  function ClearEnv(e: EnvV1): EnvV1 {
    e.(hostnames := MapSeq(e.hostnames, ClearHostname))
  }

  /** The same file without the hostnames' env fields. */
  function Cleared(v: ConfigurationV1): ConfigurationV1 {
    v.(envs := MapSeq(v.envs, ClearEnv))
  }

  lemma ServerRoundTrip(ip: Quad)
    ensures ServerOfBytes(ip) == Ok(DNSServer(ToIpString(ip), 53))
    ensures GetIpArray(DNSServer(ToIpString(ip), 53)) == Ok(ip)
  {
    IpStringIsQuad(ip);
    QuadRoundTrip(ToIpString(ip));
    IpRoundTrip(ZERO_IP, ip);
  }

  lemma EnvRoundTrip(e: EnvV1)
    ensures FromEnv(ToEnv(e)) == Ok(ClearEnv(e))
  {
    forall h: HostnameV1
      ensures FromHostname(ToHostname(h)) == Ok(ClearHostname(h))
    {
      IpRoundTrip(ZERO_IP, h.ip);
    }
    MapAllIs(ToEnv(e).hostnames, FromHostname, ClearEnv(e).hostnames);
  }

  /** Every version 1 file loads, and saving what was loaded gives the file back but for the env fields. */
  lemma RoundTrip(v: ConfigurationV1)
    ensures ToConfig(v).Ok? && ValueOf(ToConfig(v).value) == Ok(Cleared(v))
  {
    var servers := MapSeq(v.remoteDnsServers, (ip: Quad) => DNSServer(ToIpString(ip), 53));
    forall ip: Quad
      ensures ServerOfBytes(ip) == Ok(DNSServer(ToIpString(ip), 53))
      ensures GetIpArray(DNSServer(ToIpString(ip), 53)) == Ok(ip)
    {
      ServerRoundTrip(ip);
    }
    MapAllIs(v.remoteDnsServers, ServerOfBytes, servers);
    MapAllIs(servers, GetIpArray, v.remoteDnsServers);
    forall e: EnvV1
      ensures FromEnv(ToEnv(e)) == Ok(ClearEnv(e))
    {
      EnvRoundTrip(e);
    }
    MapAllIs(MapSeq(v.envs, ToEnv), FromEnv, Cleared(v).envs);
  }

  /** Every entry is loaded under its own environment, and every field as the file writes it. */
  lemma LoadedAsWritten(v: ConfigurationV1)
    ensures ToConfig(v).Ok?
    ensures var c := ToConfig(v).value;
            && c.version == 1 && c.activeEnv == v.activeEnv && c.settings == v.settings
            && c.dpsNetwork.None? && c.dpsNetworkAutoConnect.None?
            && |c.envs| == |v.envs| && |c.remoteDnsServers| == |v.remoteDnsServers|
            && (forall i :: 0 <= i < |v.envs| ==> EnvAsWritten(v.envs[i], c.envs[i]))
            && forall i :: 0 <= i < |v.remoteDnsServers| ==>
                 c.remoteDnsServers[i] == DNSServer(ToIpString(v.remoteDnsServers[i]), 53)
  {
    RoundTrip(v);
    EnvsAsWritten(v.envs);
    forall i | 0 <= i < |v.remoteDnsServers|
      ensures ToConfig(v).value.remoteDnsServers[i] == DNSServer(ToIpString(v.remoteDnsServers[i]), 53)
    {
      ServerRoundTrip(v.remoteDnsServers[i]);
    }
  }

  lemma EnvsAsWritten(envs: seq<EnvV1>)
    ensures forall i :: 0 <= i < |envs| ==> EnvAsWritten(envs[i], MapSeq(envs, ToEnv)[i])
  {
  }

  predicate EnvAsWritten(e: EnvV1, f: Env) {
    && f.name == e.name && |f.hostnames| == |e.hostnames|
    && forall j :: 0 <= j < |e.hostnames| ==>
         var h, g := e.hostnames[j], f.hostnames[j];
         && g.id == h.id && g.hostname == h.hostname && g.ip == ToIpString(h.ip) && g.target == h.target
         && g.ttl == h.ttl && g.entryType == h.entryType
  }

  // ---- The other way round ----

  predicate ExactEnv(e: Env) {
    forall i :: 0 <= i < |e.hostnames| ==> PlainAddress(e.hostnames[i].ip)
  }

  predicate ExactServer(s: DNSServer) {
    s.port == 53 && PlainAddress(s.ip)
  }

  /** The configurations version 1 can hold without loss: no network flags, default ports, plain addresses. */
  predicate Exact(c: Config) {
    && c.version == 1 && c.dpsNetwork.None? && c.dpsNetworkAutoConnect.None?
    && (forall i :: 0 <= i < |c.envs| ==> ExactEnv(c.envs[i]))
    && (forall i :: 0 <= i < |c.remoteDnsServers| ==> ExactServer(c.remoteDnsServers[i]))
  }

  function SaveLoad(c: Config): Outcome<Config> {
    match ValueOf(c)
    case Ok(v) => ToConfig(v)
    case _ => Panic
  }

  lemma HostnameSaveLoad(h: Hostname)
    ensures PlainAddress(h.ip) <==> FromHostname(h).Ok? && ToHostname(FromHostname(h).value) == h
  {
    if PlainAddress(h.ip) {
      var q := PlainIsPrinted(h.ip);
      IpRoundTrip(ZERO_IP, q);
    }
    if FromHostname(h).Ok? {
      PrintedIsPlain(FromHostname(h).value.ip);
    }
  }

  lemma EnvSaveLoad(e: Env)
    ensures ExactEnv(e) <==> FromEnv(e).Ok? && ToEnv(FromEnv(e).value) == e
  {
    forall i | 0 <= i < |e.hostnames|
      ensures PlainAddress(e.hostnames[i].ip) <==>
              FromHostname(e.hostnames[i]).Ok? && ToHostname(FromHostname(e.hostnames[i]).value) == e.hostnames[i]
    {
      HostnameSaveLoad(e.hostnames[i]);
    }
    if FromEnv(e).Ok? {
      assert forall i :: 0 <= i < |e.hostnames| ==>
               ToEnv(FromEnv(e).value).hostnames[i] == ToHostname(FromHostname(e.hostnames[i]).value);
    }
  }

  lemma ServerSaveLoad(s: DNSServer)
    ensures ExactServer(s) <==> GetIpArray(s).Ok? && ServerOfBytes(GetIpArray(s).value) == Ok(s)
  {
    if ExactServer(s) {
      var q := PlainIsPrinted(s.ip);
      ServerRoundTrip(q);
    }
    if GetIpArray(s).Ok? {
      ServerRoundTrip(GetIpArray(s).value);
      PrintedIsPlain(GetIpArray(s).value);
    }
  }

  lemma EnvsSaveLoad(envs: seq<Env>)
    ensures (forall i :: 0 <= i < |envs| ==> ExactEnv(envs[i])) <==>
            MapAll(envs, FromEnv).Ok? && MapSeq(MapAll(envs, FromEnv).value, ToEnv) == envs
  {
    forall i | 0 <= i < |envs|
      ensures ExactEnv(envs[i]) <==> FromEnv(envs[i]).Ok? && ToEnv(FromEnv(envs[i]).value) == envs[i]
    {
      EnvSaveLoad(envs[i]);
    }
  }

  lemma ServersSaveLoad(servers: seq<DNSServer>)
    ensures (forall i :: 0 <= i < |servers| ==> ExactServer(servers[i])) <==>
            MapAll(servers, GetIpArray).Ok? && MapAll(MapAll(servers, GetIpArray).value, ServerOfBytes) == Ok(servers)
  {
    forall i | 0 <= i < |servers|
      ensures ExactServer(servers[i]) <==>
              GetIpArray(servers[i]).Ok? && ServerOfBytes(GetIpArray(servers[i]).value) == Ok(servers[i])
    {
      ServerSaveLoad(servers[i]);
    }
    if forall i :: 0 <= i < |servers| ==> ExactServer(servers[i]) {
      MapAllIs(MapAll(servers, GetIpArray).value, ServerOfBytes, servers);
    }
  }

  /** Saving as version 1 and loading gives the configuration back exactly when version 1 can hold it. */
  lemma SaveLoadExact(c: Config)
    ensures SaveLoad(c) == Ok(c) <==> Exact(c)
  {
    EnvsSaveLoad(c.envs);
    ServersSaveLoad(c.remoteDnsServers);
  }

  /** A blank address, as alias entries have, comes back as 0.0.0.0. */
  lemma BlankAddressLost(h: Hostname)
    requires h.ip == ""
    ensures FromHostname(h).Ok? && ToHostname(FromHostname(h).value) == h.(ip := "0.0.0.0")
  {
    assert ToIpString(ZERO_IP) == "0.0.0.0";
  }

  lemma LoadedEnvIsExact(e: EnvV1)
    ensures ExactEnv(ToEnv(e))
  {
    forall i | 0 <= i < |e.hostnames|
      ensures PlainAddress(ToEnv(e).hostnames[i].ip)
    {
      PrintedIsPlain(e.hostnames[i].ip);
    }
  }

  lemma LoadedIsExact(v: ConfigurationV1)
    ensures ToConfig(v).Ok? && Exact(ToConfig(v).value)
  {
    RoundTrip(v);
    var c := ToConfig(v).value;
    forall i | 0 <= i < |c.remoteDnsServers|
      ensures ExactServer(c.remoteDnsServers[i])
    {
      ServerRoundTrip(v.remoteDnsServers[i]);
      PrintedIsPlain(v.remoteDnsServers[i]);
    }
    forall i | 0 <= i < |c.envs|
      ensures ExactEnv(c.envs[i])
    {
      LoadedEnvIsExact(v.envs[i]);
    }
  }
}
