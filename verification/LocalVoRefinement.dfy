/** The list-backed configuration as a map from environment to (hostname to record). */
module LocalVoRefinement {
  import opened KeyedList
  import opened LocalVo

  type Hosts = map<string, Hostname>
  type Table = map<string, Hosts>

  function HostsOf(e: Env): Hosts {
    AsMap(e.hostnames, HostName)
  }

  /** The first environment of a name counts. */
  function TableOf(envs: seq<Env>): Table {
    var m := AsMap(envs, EnvName);
    map name | name in m :: HostsOf(m[name])
  }

  predicate WellNamed(envs: seq<Env>) {
    && DistinctKeys(envs, EnvName)
    && forall i :: 0 <= i < |envs| ==> DistinctKeys(envs[i].hostnames, HostName)
  }

  predicate WellIdentified(envs: seq<Env>) {
    forall i :: 0 <= i < |envs| ==> DistinctKeys(envs[i].hostnames, HostId)
  }

  predicate WellFormed(envs: seq<Env>) {
    WellNamed(envs) && WellIdentified(envs)
  }

  // ---- An edit of the table ----

  /** When an edit is refused. */
  predicate Refused(t: Table, edit: Edit) {
    match edit
    case SetActive(env) => env !in t
    case AddEnv(env) => env.name in t
    case RemoveEnv(name) => name !in t
    case AddHost(env, host, _) => host.entryType == "" || env !in t || host.hostname in t[env]
    case UpdateHost(env, host) => env !in t || !HasId(t[env], host.id)
    case RemoveHost(env, hostname) => env !in t || hostname !in t[env]
  }

  predicate HasId(hosts: Hosts, id: int) {
    exists h :: h in hosts && hosts[h].id == id
  }

  /** A record with the id; when ids are distinct there is at most one. */
  ghost function NamedById(hosts: Hosts, id: int): (h: string)
    requires HasId(hosts, id)
    ensures h in hosts && hosts[h].id == id
  {
    var h :| h in hosts && hosts[h].id == id;
    h
  }

  /** The name of the entry an update overwrites. */
  ghost function Updated(t: Table, edit: Edit): string
    requires !Refused(t, edit)
  {
    if edit.UpdateHost? then NamedById(t[edit.env], edit.host.id) else ""
  }

  /** What an accepted edit makes of the table, an update overwriting the entry `updated`. */
  function EditTable(t: Table, edit: Edit, updated: string): Table
    requires !Refused(t, edit)
  {
    match edit
    case SetActive(_) => t
    case AddEnv(env) => t[env.name := HostsOf(env)]
    case RemoveEnv(name) => t - {name}
    case AddHost(env, host, now) =>
      t[env := t[env][host.hostname := host.(id := if host.id == 0 then now else host.id)]]
    case UpdateHost(env, host) => t[env := (t[env] - {updated})[host.hostname := host]]
    case RemoveHost(env, hostname) => t[env := t[env] - {hostname}]
  }

  /**
   The edits that keep names distinct: a new environment must have distinct hostnames, and an updated
   hostname must not take the name of another entry.
   */
  predicate NamesSafe(t: Table, edit: Edit, updated: string)
    requires !Refused(t, edit)
  {
    match edit
    case AddEnv(env) => DistinctKeys(env.hostnames, HostName)
    case UpdateHost(env, host) => host.hostname !in t[env] - {updated}
    case _ => true
  }

  /** Those that keep ids distinct. */
  predicate IdsSafe(t: Table, edit: Edit)
    requires !Refused(t, edit)
  {
    match edit
    case AddEnv(env) => DistinctKeys(env.hostnames, HostId)
    case AddHost(env, host, now) => !HasId(t[env], if host.id == 0 then now else host.id)
    case _ => true
  }

  ghost predicate Safe(t: Table, edit: Edit)
    requires !Refused(t, edit)
  {
    NamesSafe(t, edit, Updated(t, edit)) && IdsSafe(t, edit)
  }

  // ---- The list follows the table ----

  lemma TableFinds(envs: seq<Env>, name: string)
    ensures name in TableOf(envs) <==> FindEnv(envs, name) != -1
    ensures name in TableOf(envs) ==> TableOf(envs)[name] == HostsOf(envs[FindEnv(envs, name)])
  {
    MapFinds(envs, EnvName, name);
  }

  lemma DistinctFind<T, K>(list: seq<T>, key: T -> K, i: int)
    requires 0 <= i < |list| && DistinctKeys(list, key)
    ensures key(list[i]) in AsMap(list, key) && AsMap(list, key)[key(list[i])] == list[i]
    decreases |list|
  {
    Member(list, key, i);
    if i > 0 {
      DistinctFind(list[1..], key, i - 1);
      assert key(list[0]) !in AsMap(list[1..], key);
    }
  }

  /** Changing the hostnames of one environment changes only its entry. */
  lemma OneEnvChanged(c: Config, i: int, hostnames: seq<Hostname>)
    requires 0 <= i < |c.envs| && DistinctKeys(c.envs, EnvName)
    ensures var d := WithHostnames(c, i, hostnames);
            && TableOf(d.envs) == TableOf(c.envs)[c.envs[i].name := AsMap(hostnames, HostName)]
            && DistinctKeys(d.envs, EnvName)
  {
    var x := c.envs[i].(hostnames := hostnames);
    Replace(c.envs, EnvName, i, x);
    DistinctFind(c.envs, EnvName, i);
    var m := AsMap(c.envs, EnvName);
    assert AsMap(c.envs[i := x], EnvName) == (m - {x.name})[x.name := x];
  }

  lemma WellNamedChange(c: Config, i: int, hostnames: seq<Hostname>)
    requires 0 <= i < |c.envs| && WellNamed(c.envs)
    ensures WellNamed(WithHostnames(c, i, hostnames).envs) <==> DistinctKeys(hostnames, HostName)
  {
    OneEnvChanged(c, i, hostnames);
    var d := WithHostnames(c, i, hostnames);
    assert d.envs[i].hostnames == hostnames;
  }

  lemma IdInTable(e: Env, id: int)
    requires DistinctKeys(e.hostnames, HostName)
    ensures FindHostnameById(e, id) != -1 <==> HasId(HostsOf(e), id)
  {
    var j := FindHostnameById(e, id);
    if j != -1 {
      DistinctFind(e.hostnames, HostName, j);
      var h := e.hostnames[j];
      assert HostId(h) == id && HostName(h) in HostsOf(e) && HostsOf(e)[HostName(h)] == h;
    } else {
      forall h | h in HostsOf(e)
        ensures HostsOf(e)[h].id != id
      {
        MapFinds(e.hostnames, HostName, h);
        assert HostId(e.hostnames[Find(e.hostnames, HostName, h)]) != id;
      }
    }
  }

  /** An edit is refused exactly when the table says so. */
  lemma EditRefused(c: Config, edit: Edit)
    requires WellNamed(c.envs)
    ensures Apply(c, edit).Error? <==> Refused(TableOf(c.envs), edit)
    ensures Apply(c, edit).Ok? <==> !Refused(TableOf(c.envs), edit)
  {
    match edit {
      case SetActive(env) => TableFinds(c.envs, env);
      case AddEnv(env) => TableFinds(c.envs, env.name);
      case RemoveEnv(name) => TableFinds(c.envs, name);
      case AddHost(env, host, _) =>
        TableFinds(c.envs, env);
        if env in TableOf(c.envs) {
          MapFinds(c.envs[FindEnv(c.envs, env)].hostnames, HostName, host.hostname);
        }
      case UpdateHost(env, host) =>
        TableFinds(c.envs, env);
        if env in TableOf(c.envs) {
          IdInTable(c.envs[FindEnv(c.envs, env)], host.id);
        }
      case RemoveHost(env, hostname) =>
        TableFinds(c.envs, env);
        if env in TableOf(c.envs) {
          MapFinds(c.envs[FindEnv(c.envs, env)].hostnames, HostName, hostname);
        }
    }
  }

  lemma AddEnvRefines(c: Config, env: Env)
    requires WellNamed(c.envs) && FindEnv(c.envs, env.name) == -1
    ensures WellNamed(c.envs + [env]) <==> DistinctKeys(env.hostnames, HostName)
    ensures TableOf(c.envs + [env]) == TableOf(c.envs)[env.name := HostsOf(env)]
  {
    MapFinds(c.envs, EnvName, env.name);
    Append(c.envs, EnvName, env);
    var all := c.envs + [env];
    assert all[|c.envs|] == env;
    assert forall i :: 0 <= i < |c.envs| ==> all[i] == c.envs[i];
  }

  lemma AddHostRefines(c: Config, i: int, host: Hostname)
    requires WellNamed(c.envs) && 0 <= i < |c.envs| && host.hostname !in HostsOf(c.envs[i])
    ensures var d := WithHostnames(c, i, c.envs[i].hostnames + [host]);
            && WellNamed(d.envs)
            && TableOf(d.envs) == TableOf(c.envs)[c.envs[i].name := HostsOf(c.envs[i])[host.hostname := host]]
  {
    Append(c.envs[i].hostnames, HostName, host);
    OneEnvChanged(c, i, c.envs[i].hostnames + [host]);
    WellNamedChange(c, i, c.envs[i].hostnames + [host]);
  }

  lemma UpdateRefines(c: Config, i: int, j: int, host: Hostname)
    requires WellNamed(c.envs) && 0 <= i < |c.envs| && 0 <= j < |c.envs[i].hostnames|
    ensures var d, others := WithHostnames(c, i, c.envs[i].hostnames[j := host]),
                             HostsOf(c.envs[i]) - {c.envs[i].hostnames[j].hostname};
            && (WellNamed(d.envs) <==> host.hostname !in others)
            && (host.hostname !in others ==>
                TableOf(d.envs) == TableOf(c.envs)[c.envs[i].name := others[host.hostname := host]])
  {
    Replace(c.envs[i].hostnames, HostName, j, host);
    OneEnvChanged(c, i, c.envs[i].hostnames[j := host]);
    WellNamedChange(c, i, c.envs[i].hostnames[j := host]);
  }

  lemma RemoveHostRefines(c: Config, i: int, j: int)
    requires WellNamed(c.envs) && 0 <= i < |c.envs| && 0 <= j < |c.envs[i].hostnames|
    ensures var d := WithHostnames(c, i, RemoveAt(c.envs[i].hostnames, j));
            && WellNamed(d.envs)
            && TableOf(d.envs) ==
               TableOf(c.envs)[c.envs[i].name := HostsOf(c.envs[i]) - {c.envs[i].hostnames[j].hostname}]
  {
    Remove(c.envs[i].hostnames, HostName, j);
    OneEnvChanged(c, i, RemoveAt(c.envs[i].hostnames, j));
    WellNamedChange(c, i, RemoveAt(c.envs[i].hostnames, j));
  }

  /** The entry an update overwrites in the list: the first with the id. */
  function FirstById(c: Config, edit: Edit): string {
    if !edit.UpdateHost? then ""
    else
      var i := FindEnv(c.envs, edit.env);
      if i == -1 || FindHostnameById(c.envs[i], edit.host.id) == -1 then ""
      else c.envs[i].hostnames[FindHostnameById(c.envs[i], edit.host.id)].hostname
  }

  /**
   Whatever the ids: an accepted edit keeps names distinct exactly when it is safe for names, and then it is the
   edit of the table at the first entry with the id.
   */
  lemma EditKeepsNames(c: Config, edit: Edit)
    requires WellNamed(c.envs) && !Refused(TableOf(c.envs), edit)
    ensures Apply(c, edit).Ok?
    ensures WellNamed(Apply(c, edit).value.envs) <==> NamesSafe(TableOf(c.envs), edit, FirstById(c, edit))
    ensures NamesSafe(TableOf(c.envs), edit, FirstById(c, edit)) ==>
              TableOf(Apply(c, edit).value.envs) == EditTable(TableOf(c.envs), edit, FirstById(c, edit))
  {
    EditRefused(c, edit);
    match edit {
      case SetActive(_) =>
      case AddEnv(env) => AddEnvRefines(c, env);
      case RemoveEnv(name) => Remove(c.envs, EnvName, FindEnv(c.envs, name));
      case AddHost(env, host, now) =>
        TableFinds(c.envs, env);
        AddHostRefines(c, FindEnv(c.envs, env), WithId(host, now));
      case UpdateHost(env, host) =>
        TableFinds(c.envs, env);
        var i := FindEnv(c.envs, env);
        UpdateRefines(c, i, FindHostnameById(c.envs[i], host.id), host);
      case RemoveHost(env, hostname) =>
        TableFinds(c.envs, env);
        var i := FindEnv(c.envs, env);
        RemoveHostRefines(c, i, FindHostname(c.envs[i], hostname));
    }
  }

  // ---- Ids ----

  lemma HostIds(e: Env, id: int)
    requires DistinctKeys(e.hostnames, HostName)
    ensures id in AsMap(e.hostnames, HostId) <==> HasId(HostsOf(e), id)
  {
    IdInTable(e, id);
    MapFinds(e.hostnames, HostId, id);
  }

  /** With distinct ids the table has one entry with the id, and it is the first in the list. */
  lemma OneWithId(e: Env, id: int)
    requires DistinctKeys(e.hostnames, HostName) && DistinctKeys(e.hostnames, HostId) && HasId(HostsOf(e), id)
    ensures FindHostnameById(e, id) != -1
    ensures e.hostnames[FindHostnameById(e, id)].hostname == NamedById(HostsOf(e), id)
  {
    IdInTable(e, id);
    var h := NamedById(HostsOf(e), id);
    MapFinds(e.hostnames, HostName, h);
    var i, j := Find(e.hostnames, HostName, h), FindHostnameById(e, id);
    DistinctMeans(e.hostnames, HostId);
    assert HostId(e.hostnames[i]) == HostId(e.hostnames[j]);
  }

  lemma IdentifiedChange(c: Config, i: int, hostnames: seq<Hostname>)
    requires 0 <= i < |c.envs| && WellIdentified(c.envs)
    ensures WellIdentified(WithHostnames(c, i, hostnames).envs) <==> DistinctKeys(hostnames, HostId)
  {
    var d := WithHostnames(c, i, hostnames);
    assert d.envs[i].hostnames == hostnames;
  }

  lemma AddEnvKeepsIds(c: Config, env: Env)
    requires WellIdentified(c.envs)
    ensures WellIdentified(c.envs + [env]) <==> DistinctKeys(env.hostnames, HostId)
  {
    var all := c.envs + [env];
    assert all[|c.envs|] == env;
    assert forall i :: 0 <= i < |c.envs| ==> all[i] == c.envs[i];
  }

  lemma RemoveEnvKeepsIds(c: Config, i: int)
    requires WellIdentified(c.envs) && 0 <= i < |c.envs|
    ensures WellIdentified(RemoveAt(c.envs, i))
  {
  }

  lemma AddHostKeepsIds(c: Config, i: int, host: Hostname)
    requires WellFormed(c.envs) && 0 <= i < |c.envs|
    ensures WellIdentified(WithHostnames(c, i, c.envs[i].hostnames + [host]).envs) <==>
            !HasId(HostsOf(c.envs[i]), host.id)
  {
    HostIds(c.envs[i], host.id);
    AppendDistinct(c.envs[i].hostnames, HostId, host);
    IdentifiedChange(c, i, c.envs[i].hostnames + [host]);
  }

  lemma UpdateKeepsIds(c: Config, i: int, j: int, host: Hostname)
    requires WellIdentified(c.envs) && 0 <= i < |c.envs| && 0 <= j < |c.envs[i].hostnames|
    requires c.envs[i].hostnames[j].id == host.id
    ensures WellIdentified(WithHostnames(c, i, c.envs[i].hostnames[j := host]).envs)
  {
    Replace(c.envs[i].hostnames, HostId, j, host);
    IdentifiedChange(c, i, c.envs[i].hostnames[j := host]);
  }

  lemma RemoveHostKeepsIds(c: Config, i: int, j: int)
    requires WellIdentified(c.envs) && 0 <= i < |c.envs| && 0 <= j < |c.envs[i].hostnames|
    ensures WellIdentified(WithHostnames(c, i, RemoveAt(c.envs[i].hostnames, j)).envs)
  {
    Remove(c.envs[i].hostnames, HostId, j);
    IdentifiedChange(c, i, RemoveAt(c.envs[i].hostnames, j));
  }

  lemma EditKeepsIds(c: Config, edit: Edit)
    requires WellFormed(c.envs) && !Refused(TableOf(c.envs), edit)
    ensures Apply(c, edit).Ok?
    ensures WellIdentified(Apply(c, edit).value.envs) <==> IdsSafe(TableOf(c.envs), edit)
  {
    EditRefused(c, edit);
    match edit {
      case SetActive(_) =>
      case AddEnv(env) => AddEnvKeepsIds(c, env);
      case RemoveEnv(name) => RemoveEnvKeepsIds(c, FindEnv(c.envs, name));
      case AddHost(env, host, now) =>
        TableFinds(c.envs, env);
        AddHostKeepsIds(c, FindEnv(c.envs, env), WithId(host, now));
      case UpdateHost(env, host) =>
        var i := FindEnv(c.envs, env);
        UpdateKeepsIds(c, i, FindHostnameById(c.envs[i], host.id), host);
      case RemoveHost(env, hostname) =>
        var i := FindEnv(c.envs, env);
        RemoveHostKeepsIds(c, i, FindHostname(c.envs[i], hostname));
    }
  }

  // ---- The whole configuration ----

  /** What edits are about: the active environment's name and the table. */
  datatype Book = Book(active: string, table: Table)

  function BookOf(c: Config): Book {
    Book(c.activeEnv, TableOf(c.envs))
  }

  /** Only `SetActive` changes the active name, and to the one it gives. */
  ghost function EditBook(b: Book, edit: Edit): Book
    requires !Refused(b.table, edit)
  {
    Book(if edit.SetActive? then edit.env else b.active, EditTable(b.table, edit, Updated(b.table, edit)))
  }

  /** No edit touches the version, the servers, the settings or the network flags. */
  lemma EditKeepsRest(c: Config, edit: Edit)
    requires Apply(c, edit).Ok?
    ensures var d := Apply(c, edit).value;
            && d.version == c.version && d.remoteDnsServers == c.remoteDnsServers && d.settings == c.settings
            && d.dpsNetwork == c.dpsNetwork && d.dpsNetworkAutoConnect == c.dpsNetworkAutoConnect
            && d.activeEnv == if edit.SetActive? then edit.env else c.activeEnv
  {
  }

  /**
   With names and ids distinct, an accepted edit keeps both distinct exactly when it is safe, and then it is the edit
   of the book.
   */
  lemma EditRefines(c: Config, edit: Edit)
    requires WellFormed(c.envs) && !Refused(TableOf(c.envs), edit)
    ensures Apply(c, edit).Ok?
    ensures WellFormed(Apply(c, edit).value.envs) <==> Safe(TableOf(c.envs), edit)
    ensures Safe(TableOf(c.envs), edit) ==> BookOf(Apply(c, edit).value) == EditBook(BookOf(c), edit)
  {
    if edit.UpdateHost? {
      TableFinds(c.envs, edit.env);
      OneWithId(c.envs[FindEnv(c.envs, edit.env)], edit.host.id);
    }
    EditKeepsNames(c, edit);
    EditKeepsIds(c, edit);
    EditKeepsRest(c, edit);
  }

  // ---- Order ----

  lemma OrderOfAppend<T, K(!new)>(list: seq<T>, key: T -> K, x: T)
    requires Find(list, key, key(x)) == -1
    ensures SameOrder(list, list + [x], key) && Find(list + [x], key, key(x)) == |list|
  {
    forall k | Find(list, key, k) != -1
      ensures Find(list + [x], key, k) == Find(list, key, k)
    {
      FirstIs(list + [x], key, k, Find(list, key, k));
    }
    FirstIs(list + [x], key, key(x), |list|);
  }

  lemma OrderOfRemove<T, K(!new)>(list: seq<T>, key: T -> K, i: int)
    requires 0 <= i < |list| && DistinctKeys(list, key)
    ensures SameOrder(list, RemoveAt(list, i), key)
  {
    var less := RemoveAt(list, i);
    DistinctMeans(list, key);
    forall k | Find(list, key, k) != -1 && Find(less, key, k) != -1
      ensures var j := Find(list, key, k); j != i && Find(less, key, k) == if j < i then j else j - 1
    {
      var j, l := Find(list, key, k), Find(less, key, k);
      assert less[l] == list[if l < i then l else l + 1];
    }
  }

  lemma OrderOfUpdate<T, K(!new)>(list: seq<T>, key: T -> K, i: int, x: T)
    requires 0 <= i < |list| && key(x) == key(list[i])
    ensures SameOrder(list, list[i := x], key)
  {
    forall k | Find(list, key, k) != -1
      ensures Find(list[i := x], key, k) == Find(list, key, k)
    {
      FirstIs(list[i := x], key, k, Find(list, key, k));
    }
  }

  lemma SameList<T, K(!new)>(list: seq<T>, key: T -> K)
    ensures SameOrder(list, list, key)
  {
  }

  /** The environments keep their order, a new one comes last. */
  lemma EditKeepsEnvOrder(c: Config, edit: Edit)
    requires WellFormed(c.envs) && !Refused(TableOf(c.envs), edit)
    ensures Apply(c, edit).Ok?
    ensures SameOrder(c.envs, Apply(c, edit).value.envs, EnvName)
    ensures edit.AddEnv? ==> FindEnv(Apply(c, edit).value.envs, edit.newEnv.name) == |c.envs|
  {
    EditRefused(c, edit);
    match edit {
      case SetActive(_) => SameList(c.envs, EnvName);
      case AddEnv(env) => OrderOfAppend(c.envs, EnvName, env);
      case RemoveEnv(name) => OrderOfRemove(c.envs, EnvName, FindEnv(c.envs, name));
      case _ =>
        var i := FindEnv(c.envs, edit.env);
        OrderOfUpdate(c.envs, EnvName, i, Apply(c, edit).value.envs[i]);
    }
  }

  /** The edited environment's hostnames keep their order, by id, and a new one comes last; no other list changes. */
  lemma EditKeepsHostOrder(c: Config, edit: Edit)
    requires WellFormed(c.envs) && !Refused(TableOf(c.envs), edit)
    requires edit.AddHost? || edit.UpdateHost? || edit.RemoveHost?
    ensures Apply(c, edit).Ok?
    ensures var d, i := Apply(c, edit).value, FindEnv(c.envs, edit.env);
            && 0 <= i < |c.envs| == |d.envs|
            && (forall j :: 0 <= j < |c.envs| && j != i ==> d.envs[j] == c.envs[j])
            && (edit.AddHost? ==> d.envs[i].hostnames[..|d.envs[i].hostnames| - 1] == c.envs[i].hostnames)
            && (Safe(TableOf(c.envs), edit) ==> SameOrder(c.envs[i].hostnames, d.envs[i].hostnames, HostId))
  {
    EditRefused(c, edit);
    var i := FindEnv(c.envs, edit.env);
    var hosts := c.envs[i].hostnames;
    match edit {
      case AddHost(env, host, now) =>
        TableFinds(c.envs, env);
        HostIds(c.envs[i], WithId(host, now).id);
        MapFinds(hosts, HostId, WithId(host, now).id);
        if Find(hosts, HostId, WithId(host, now).id) == -1 {
          OrderOfAppend(hosts, HostId, WithId(host, now));
        }
      case UpdateHost(env, host) => OrderOfUpdate(hosts, HostId, FindHostnameById(c.envs[i], host.id), host);
      case RemoveHost(env, hostname) => OrderOfRemove(hosts, HostId, FindHostname(c.envs[i], hostname));
    }
  }

  // ---- Runs of edits ----

  /** Refused edits leave the configuration alone. */
  function RunEdits(c: Config, edits: seq<Edit>): Config
    decreases |edits|
  {
    if edits == [] then c
    else
      var next := match Apply(c, edits[0]) case Ok(d) => d case _ => c;
      RunEdits(next, edits[1..])
  }

  ghost function RunBook(b: Book, edits: seq<Edit>): Book
    decreases |edits|
  {
    if edits == [] then b
    else if Refused(b.table, edits[0]) then RunBook(b, edits[1..])
    else RunBook(EditBook(b, edits[0]), edits[1..])
  }

  ghost predicate AllSafe(b: Book, edits: seq<Edit>)
    decreases |edits|
  {
    edits == [] ||
    if Refused(b.table, edits[0]) then AllSafe(b, edits[1..])
    else Safe(b.table, edits[0]) && AllSafe(EditBook(b, edits[0]), edits[1..])
  }

  /** Every run of edits, safe for the book it meets, keeps names and ids distinct and is the run on the book. */
  lemma {:induction false} RunRefines(c: Config, edits: seq<Edit>)
    requires WellFormed(c.envs) && AllSafe(BookOf(c), edits)
    ensures WellFormed(RunEdits(c, edits).envs)
    ensures BookOf(RunEdits(c, edits)) == RunBook(BookOf(c), edits)
    decreases |edits|
  {
    if edits != [] {
      EditRefused(c, edits[0]);
      if Refused(TableOf(c.envs), edits[0]) {
        RunRefines(c, edits[1..]);
      } else {
        EditRefines(c, edits[0]);
        RunRefines(Apply(c, edits[0]).value, edits[1..]);
      }
    }
  }
}
