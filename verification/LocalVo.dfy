/**
 The configuration: environments and hostnames held as lists, edited in place. The specification is on
 values; the class does the same with its fields.
 */
module LocalVo {
  import opened Wrappers
  import opened DnsServer
  import opened KeyedList

  // Entry types.
  const A := "A"
  const CNAME := "CNAME"

  datatype Hostname = Hostname(id: int, hostname: string, ip: string, target: string, ttl: int, entryType: string)

  datatype Env = Env(name: string, hostnames: seq<Hostname>)

  /** The fields no operation here looks at. */
  datatype Settings = Settings(
    webServerPort: int, dnsServerPort: int, defaultDns: Option<bool>, logLevel: string, logFile: string,
    registerContainerNames: Option<bool>, hostMachineHostname: string, domain: string)

  datatype Config = Config(
    version: int, remoteDnsServers: seq<DNSServer>, envs: seq<Env>, activeEnv: string, settings: Settings,
    dpsNetwork: Option<bool>, dpsNetworkAutoConnect: Option<bool>)

  function EnvName(e: Env): string { e.name }
  function HostName(h: Hostname): string { h.hostname }
  function HostId(h: Hostname): int { h.id }

  // ---- Lookups ----

  function FindEnv(envs: seq<Env>, name: string): int {
    Find(envs, EnvName, name)
  }

  function FindHostname(env: Env, name: string): int {
    Find(env.hostnames, HostName, name)
  }

  function FindHostnameById(env: Env, id: int): int {
    Find(env.hostnames, HostId, id)
  }

  lemma FindScan<T, K>(list: seq<T>, key: T -> K, k: K, i: nat)
    requires i < |list|
    ensures Find(list[i..], key, k) == if key(list[i]) == k then 0
                                       else if Find(list[i + 1..], key, k) == -1 then -1
                                       else Find(list[i + 1..], key, k) + 1
  {
    assert list[i..][1..] == list[i + 1..];
  }

  method GetHostname(env: Env, hostname: string) returns (i: int)
    ensures i == FindHostname(env, hostname)
  {
    for k := 0 to |env.hostnames|
      invariant FindHostname(env, hostname) ==
                var rest := Find(env.hostnames[k..], HostName, hostname); if rest == -1 then -1 else k + rest
    {
      FindScan(env.hostnames, HostName, hostname, k);
      if env.hostnames[k].hostname == hostname {
        return k;
      }
    }
    i := -1;
  }

  method GetHostnameById(env: Env, id: int) returns (i: int)
    ensures i == FindHostnameById(env, id)
  {
    for k := 0 to |env.hostnames|
      invariant FindHostnameById(env, id) ==
                var rest := Find(env.hostnames[k..], HostId, id); if rest == -1 then -1 else k + rest
    {
      FindScan(env.hostnames, HostId, id, k);
      if env.hostnames[k].id == id {
        return k;
      }
    }
    i := -1;
  }

  // ---- Edits, on values ----

  datatype Edit =
    | SetActive(env: string)
    | AddEnv(newEnv: Env)
    | RemoveEnv(env: string)
    | AddHost(env: string, host: Hostname, now: int)
    | UpdateHost(env: string, host: Hostname)
    | RemoveHost(env: string, hostname: string)

  function WithHostnames(c: Config, i: int, hostnames: seq<Hostname>): Config
    requires 0 <= i < |c.envs|
  {
    c.(envs := c.envs[i := c.envs[i].(hostnames := hostnames)])
  }

  /** A missing id is filled in from the clock. */
  function WithId(h: Hostname, now: int): Hostname {
    if h.id == 0 then h.(id := now) else h
  }

  /** Errors leave the configuration alone. */
  function Apply(c: Config, edit: Edit): Outcome<Config> {
    match edit
    case SetActive(env) => if FindEnv(c.envs, env) == -1 then Error else Ok(c.(activeEnv := env))
    case AddEnv(env) => if FindEnv(c.envs, env.name) != -1 then Error else Ok(c.(envs := c.envs + [env]))
    case RemoveEnv(name) =>
      var i := FindEnv(c.envs, name);
      if i == -1 then Error else Ok(c.(envs := RemoveAt(c.envs, i)))
    case AddHost(env, host, now) =>
      var i := FindEnv(c.envs, env);
      if host.entryType == "" || i == -1 || FindHostname(c.envs[i], host.hostname) != -1 then Error
      else Ok(WithHostnames(c, i, c.envs[i].hostnames + [WithId(host, now)]))
    case UpdateHost(env, host) =>
      var i := FindEnv(c.envs, env);
      if i == -1 then Error
      else
        var j := FindHostnameById(c.envs[i], host.id);
        if j == -1 then Error else Ok(WithHostnames(c, i, c.envs[i].hostnames[j := host]))
    case RemoveHost(env, hostname) =>
      var i := FindEnv(c.envs, env);
      if i == -1 then Error
      else
        var j := FindHostname(c.envs[i], hostname);
        if j == -1 then Error else Ok(WithHostnames(c, i, RemoveAt(c.envs[i].hostnames, j)))
  }

  // ---- The object ----

  class Configuration {
    var version: int
    var remoteDnsServers: seq<DNSServer>
    var envs: seq<Env>
    var activeEnv: string
    var settings: Settings
    var dpsNetwork: Option<bool>
    var dpsNetworkAutoConnect: Option<bool>

    constructor (c: Config)
      ensures View() == c
    {
      version, remoteDnsServers, envs, activeEnv := c.version, c.remoteDnsServers, c.envs, c.activeEnv;
      settings, dpsNetwork, dpsNetworkAutoConnect := c.settings, c.dpsNetwork, c.dpsNetworkAutoConnect;
    }

    function View(): Config
      reads this
    {
      Config(version, remoteDnsServers, envs, activeEnv, settings, dpsNetwork, dpsNetworkAutoConnect)
    }

    method GetEnv(envName: string) returns (i: int)
      ensures i == FindEnv(envs, envName)
    {
      for k := 0 to |envs|
        invariant FindEnv(envs, envName) ==
                  var rest := Find(envs[k..], EnvName, envName); if rest == -1 then -1 else k + rest
      {
        FindScan(envs, EnvName, envName, k);
        if envs[k].name == envName {
          return k;
        }
      }
      i := -1;
    }

    method SetActiveEnv(env: string) returns (ok: bool)
      modifies this`activeEnv
      ensures ok == Apply(old(View()), SetActive(env)).Ok?
      ensures View() == if ok then Apply(old(View()), SetActive(env)).value else old(View())
    {
      var i := GetEnv(env);
      ok := i != -1;
      if ok {
        activeEnv := env;
      }
    }

    method AddEnvironment(env: Env) returns (ok: bool)
      modifies this`envs
      ensures ok == Apply(old(View()), AddEnv(env)).Ok?
      ensures View() == if ok then Apply(old(View()), AddEnv(env)).value else old(View())
    {
      var i := GetEnv(env.name);
      ok := i == -1;
      if ok {
        envs := envs + [env];
      }
    }

    method RemoveEnvByName(name: string) returns (ok: bool)
      modifies this`envs
      ensures ok == Apply(old(View()), RemoveEnv(name)).Ok?
      ensures View() == if ok then Apply(old(View()), RemoveEnv(name)).value else old(View())
    {
      var i := GetEnv(name);
      ok := i != -1;
      if ok {
        envs := envs[..i] + envs[i + 1..];
      }
    }

    method AddHostname(envName: string, host: Hostname, now: int) returns (ok: bool)
      modifies this`envs
      ensures ok == Apply(old(View()), AddHost(envName, host, now)).Ok?
      ensures View() == if ok then Apply(old(View()), AddHost(envName, host, now)).value else old(View())
    {
      var withId := if host.id == 0 then host.(id := now) else host;
      if withId.entryType == "" {
        return false;
      }
      var i := GetEnv(envName);
      if i == -1 {
        return false;
      }
      var found := GetHostname(envs[i], withId.hostname);
      if found != -1 {
        return false;
      }
      envs := envs[i := envs[i].(hostnames := envs[i].hostnames + [withId])];
      ok := true;
    }

    method UpdateHostname(envName: string, host: Hostname) returns (ok: bool)
      modifies this`envs
      ensures ok == Apply(old(View()), UpdateHost(envName, host)).Ok?
      ensures View() == if ok then Apply(old(View()), UpdateHost(envName, host)).value else old(View())
    {
      var i := GetEnv(envName);
      if i == -1 {
        return false;
      }
      var j := GetHostnameById(envs[i], host.id);
      if j == -1 {
        return false;
      }
      // Field by field; the id was the one looked up.
      var updated := envs[i].hostnames[j].(
        hostname := host.hostname, ttl := host.ttl, ip := host.ip, target := host.target, entryType := host.entryType);
      assert updated == host;
      envs := envs[i := envs[i].(hostnames := envs[i].hostnames[j := updated])];
      ok := true;
    }

    method RemoveHostnameByEnvAndHostname(envName: string, hostname: string) returns (ok: bool)
      modifies this`envs
      ensures ok == Apply(old(View()), RemoveHost(envName, hostname)).Ok?
      ensures View() == if ok then Apply(old(View()), RemoveHost(envName, hostname)).value else old(View())
    {
      var i := GetEnv(envName);
      if i == -1 {
        return false;
      }
      var j := GetHostname(envs[i], hostname);
      if j == -1 {
        return false;
      }
      envs := envs[i := envs[i].(hostnames := envs[i].hostnames[..j] + envs[i].hostnames[j + 1..])];
      ok := true;
    }
  }
}
