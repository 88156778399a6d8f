/** The version 2 file format: addresses as text, servers as `ip:port`. */
module StorageV2 {
  import opened Wrappers
  import opened Outcomes
  import opened DnsServer
  import opened LocalVo

  datatype HostnameV2 = HostnameV2(
    id: int, hostname: string, ip: string, target: string, ttl: int, entryType: string)

  datatype EnvV2 = EnvV2(name: string, hostnames: seq<HostnameV2>)

  datatype ConfigurationV2 = ConfigurationV2(
    version: int, remoteDnsServers: seq<string>, envs: seq<EnvV2>, activeEnv: string, settings: Settings,
    dpsNetwork: Option<bool>, dpsNetworkAutoConnect: Option<bool>)

  // ---- Saving ----

  function ToV2Hostname(h: Hostname): HostnameV2 {
    HostnameV2(h.id, h.hostname, h.ip, h.target, h.ttl, h.entryType)
  }

  function ToV2Env(e: Env): EnvV2 {
    EnvV2(e.name, MapSeq(e.hostnames, ToV2Hostname))
  }

  function ValueOf(c: Config): ConfigurationV2 {
    ConfigurationV2(2, MapSeq(c.remoteDnsServers, GetAddress), MapSeq(c.envs, ToV2Env), c.activeEnv, c.settings,
                    c.dpsNetwork, c.dpsNetworkAutoConnect)
  }

  method ToV2Envs(envs: seq<Env>) returns (r: seq<EnvV2>)
    ensures r == MapSeq(envs, ToV2Env)
  {
    r := FillEach(envs, ToV2Env, EnvV2("", []));
  }

  method ToFile(c: Config) returns (r: ConfigurationV2)
    ensures r == ValueOf(c)
  {
    var servers := ToIpsStringArray(c.remoteDnsServers);
    var envs := ToV2Envs(c.envs);
    r := ConfigurationV2(2, servers, envs, c.activeEnv, c.settings, c.dpsNetwork, c.dpsNetworkAutoConnect);
  }

  // ---- Loading ----

  function ToHostname(h: HostnameV2): Hostname {
    Hostname(h.id, h.hostname, h.ip, h.target, h.ttl, h.entryType)
  }

  function ToEnv(e: EnvV2): Env {
    Env(e.name, MapSeq(e.hostnames, ToHostname))
  }

  /** Panics on a server text without an address in it. */
  function ToConfig(v: ConfigurationV2): Outcome<Config> {
    match MapAll(v.remoteDnsServers, ToDnsServer)
    case Ok(servers) =>
      Ok(Config(2, servers, MapSeq(v.envs, ToEnv), v.activeEnv, v.settings, v.dpsNetwork, v.dpsNetworkAutoConnect))
    case _ => Panic
  }

  method ToEnvs(v2Envs: seq<EnvV2>) returns (r: seq<Env>)
    ensures r == MapSeq(v2Envs, ToEnv)
  {
    r := FillEach(v2Envs, ToEnv, Env("", []));
  }

  method FromFile(v: ConfigurationV2) returns (r: Outcome<Config>)
    ensures r == ToConfig(v)
  {
    var envs := ToEnvs(v.envs);
    var servers := StringArrayToDnsServer(v.remoteDnsServers);
    if !servers.Ok? {
      return Panic;
    }
    r := Ok(Config(2, servers.value, envs, v.activeEnv, v.settings, v.dpsNetwork, v.dpsNetworkAutoConnect));
  }

  // ---- Round trips ----

  predicate Printable(s: DNSServer) {
    IsQuad(s.ip) && s.port >= 0
  }

  lemma EnvsRoundTrip(envs: seq<Env>)
    ensures MapSeq(MapSeq(envs, ToV2Env), ToEnv) == envs
  {
    forall e: Env
      ensures ToEnv(ToV2Env(e)) == e
    {
      assert ToEnv(ToV2Env(e)).hostnames == e.hostnames;
    }
  }

  lemma ServersRoundTrip(servers: seq<DNSServer>)
    ensures MapAll(MapSeq(servers, GetAddress), ToDnsServer) == Ok(servers) <==>
            forall i :: 0 <= i < |servers| ==> Printable(servers[i])
  {
    forall s: DNSServer
      ensures ToDnsServer(GetAddress(s)) == Ok(s) <==> Printable(s)
    {
      AddressRoundTrip(s);
    }
    if forall i :: 0 <= i < |servers| ==> Printable(servers[i]) {
      MapAllIs(MapSeq(servers, GetAddress), ToDnsServer, servers);
    }
  }

  /** Saving and loading gives the configuration back exactly for version 2 with printable servers. */
  lemma RoundTrip(c: Config)
    ensures ToConfig(ValueOf(c)) == Ok(c) <==>
            c.version == 2 && forall i :: 0 <= i < |c.remoteDnsServers| ==> Printable(c.remoteDnsServers[i])
  {
    EnvsRoundTrip(c.envs);
    ServersRoundTrip(c.remoteDnsServers);
  }

  /** What was loaded is printable, so loading, saving and loading again changes nothing more. */
  lemma LoadSaveLoad(v: ConfigurationV2)
    requires ToConfig(v).Ok?
    ensures var c := ToConfig(v).value;
            && (forall i :: 0 <= i < |c.remoteDnsServers| ==> Printable(c.remoteDnsServers[i]))
            && ToConfig(ValueOf(c)) == Ok(c)
  {
    var c := ToConfig(v).value;
    forall i | 0 <= i < |c.remoteDnsServers|
      ensures Printable(c.remoteDnsServers[i])
    {
      ReadPrintRead(v.remoteDnsServers[i]);
    }
    RoundTrip(c);
  }

  /** Every entry is loaded under its own environment, and every field as the file writes it. */
  lemma LoadedAsWritten(v: ConfigurationV2)
    requires ToConfig(v).Ok?
    ensures var c := ToConfig(v).value;
            && c.version == 2 && c.activeEnv == v.activeEnv && c.settings == v.settings
            && c.dpsNetwork == v.dpsNetwork && c.dpsNetworkAutoConnect == v.dpsNetworkAutoConnect
            && |c.envs| == |v.envs| && |c.remoteDnsServers| == |v.remoteDnsServers|
            && forall i :: 0 <= i < |v.envs| ==> EnvAsWritten(v.envs[i], c.envs[i])
  {
  }

  predicate EnvAsWritten(e: EnvV2, f: Env) {
    && f.name == e.name && |f.hostnames| == |e.hostnames|
    && forall j :: 0 <= j < |e.hostnames| ==>
         var h, g := e.hostnames[j], f.hostnames[j];
         && g.id == h.id && g.hostname == h.hostname && g.ip == h.ip && g.target == h.target
         && g.ttl == h.ttl && g.entryType == h.entryType
  }

  /** A file loads exactly when each server text has a quad somewhere in it. */
  lemma LoadsWhen(v: ConfigurationV2)
    ensures ToConfig(v).Ok? <==> forall k :: 0 <= k < |v.remoteDnsServers| ==> HasQuad(v.remoteDnsServers[k])
  {
    forall text: string
      ensures ToDnsServer(text).Ok? <==> HasQuad(text)
    {
      FoundWhenQuadOccurs(text);
    }
  }
}
