/** The configuration file as an object: load, edit in place, save, flush. */
module LocalStore {
  import opened Wrappers
  import opened Dns
  import opened LocalVo
  import opened LocalEvents
  import opened TimedCache
  import StorageV1
  import StorageV2

  /** The version struct that is written. */
  method ToFile(c: Config) returns (r: Outcome<StoredFile>)
    ensures r == FileOf(c)
  {
    if c.version == 2 {
      var v2 := StorageV2.ToFile(c);
      return Ok(V2(v2));
    }
    var v1 := StorageV1.ToFile(c);
    r := if v1.Ok? then Ok(V1(v1.value)) else Panic;
  }

  method FromFile(f: StoredFile) returns (r: Outcome<Config>)
    ensures r == LoadVersionedConfiguration(f)
  {
    match f {
      case V1(v) => r := StorageV1.FromFile(v);
      case V2(v) => r := StorageV2.FromFile(v);
      case Unrecognized => r := Error;
    }
  }

  class LocalStore {
    var file: Option<StoredFile>
    const caches: CacheStore<Msg>

    constructor (file: Option<StoredFile>, caches: CacheStore<Msg>)
      ensures this.file == file && this.caches == caches
    {
      this.file, this.caches := file, caches;
    }

    ghost predicate AllFlushed()
      reads caches, caches.Footprint()
    {
      forall c :: c in caches.caches ==> c.cache.entries == map[]
    }

    /**
     Fills in an environment, writes the file, flushes. A panic while converting leaves file and caches alone, and
     so, without an error, does a file that cannot be opened for writing.
     */
    method SaveConfiguration(c: Configuration, writable: bool) returns (r: Outcome<()>)
      requires caches.Valid()
      modifies c`envs, this`file, caches.Footprint()
      ensures caches.Valid()
      ensures c.View() == WithSomeEnv(old(c.View()))
      ensures r == if FileOf(c.View()).Ok? then Ok(()) else Panic
      ensures r.Ok? && writable ==> file.Some? && FileOf(c.View()) == Ok(file.value) && AllFlushed()
      ensures !r.Ok? || !writable ==> file == old(file) && unchanged(caches.Footprint())
    {
      if |c.envs| == 0 {
        c.envs := EMPTY_ENV;
      }
      var f := ToFile(c.View());
      if !f.Ok? {
        return Panic;
      }
      if !writable {
        return Ok(());
      }
      file := Some(f.value);
      caches.ClearAllCaches();
      r := Ok(());
    }

    /** Fills in missing ids in place and saves when there was one. */
    method SetHostnameIds(c: Configuration, ids: Ids, writable: bool) returns (r: Outcome<()>)
      requires caches.Valid()
      modifies c`envs, this`file, caches.Footprint()
      ensures caches.Valid()
      ensures c.View() == if MissesId(old(c.View())) then Stamped(old(c.View()), ids) else old(c.View())
      ensures r == if MissesId(old(c.View())) && !FileOf(c.View()).Ok? then Panic else Ok(())
      ensures MissesId(old(c.View())) && r.Ok? && writable ==>
                file.Some? && FileOf(c.View()) == Ok(file.value) && AllFlushed()
      ensures !MissesId(old(c.View())) || !r.Ok? || !writable ==> file == old(file) && unchanged(caches.Footprint())
    {
      var atLeastOneUpdated := false;
      ghost var before := c.View();
      for i := 0 to |c.envs|
        invariant file == old(file) && unchanged(caches.Footprint()) && caches.Valid()
        invariant c.View() == before.(envs := c.envs) && |c.envs| == |before.envs|
        invariant forall k :: 0 <= k < i ==> c.envs[k] == StampEnv(before.envs[k], k, ids)
        invariant forall k :: i <= k < |c.envs| ==> c.envs[k] == before.envs[k]
        invariant atLeastOneUpdated <==>
                  exists k, j ::
                    0 <= k < i && 0 <= j < |before.envs[k].hostnames| && before.envs[k].hostnames[j].id == 0
      {
        var stamped, missing := StampHostnames(c.envs[i], i, ids);
        c.envs := c.envs[i := stamped];
        atLeastOneUpdated := atLeastOneUpdated || missing;
      }
      if atLeastOneUpdated {
        assert c.envs == Stamped(before, ids).envs;
        assert c.envs != [];
        r := SaveConfiguration(c, writable);
      } else {
        forall k | 0 <= k < |c.envs|
          ensures c.envs[k] == before.envs[k]
        {
          assert c.envs[k].hostnames == before.envs[k].hostnames;
        }
        assert c.envs == before.envs;
        r := Ok(());
      }
    }

    /** The inner loop, over the hostnames of one environment. */
    static method StampHostnames(env: Env, i: nat, ids: Ids) returns (r: Env, updated: bool)
      ensures r == StampEnv(env, i, ids)
      ensures updated <==> exists j :: 0 <= j < |env.hostnames| && env.hostnames[j].id == 0
    {
      updated := false;
      var hosts := env.hostnames;
      for j := 0 to |env.hostnames|
        invariant |hosts| == |env.hostnames|
        invariant forall k :: 0 <= k < j ==> hosts[k] == WithId(env.hostnames[k], ids(i, k))
        invariant forall k :: j <= k < |hosts| ==> hosts[k] == env.hostnames[k]
        invariant updated <==> exists k :: 0 <= k < j && env.hostnames[k].id == 0
      {
        if hosts[j].id == 0 {
          hosts := hosts[j := hosts[j].(id := ids(i, j))];
          updated := true;
        }
      }
      r := Env(env.name, hosts);
      assert r.hostnames == StampEnv(env, i, ids).hostnames;
    }

    method LoadConfiguration(io: Io) returns (r: Outcome<Configuration>)
      requires caches.Valid()
      modifies this`file, caches.Footprint()
      ensures caches.Valid()
      ensures r.Ok? == Load(old(file), io).Ok? && r.Error? == Load(old(file), io).Error?
      ensures r.Ok? ==> var l := Load(old(file), io).value;
                        && fresh(r.value) && r.value.View() == l.config && file == l.file
                        && (if l.saved then AllFlushed() else unchanged(caches.Footprint()))
      ensures !r.Ok? ==> file == old(file) && unchanged(caches.Footprint())
    {
      if file.None? {
        var c := CreateDefault(io);
        return Ok(c);
      }
      var loaded := FromFile(file.value);
      if !loaded.Ok? {
        return if loaded.Error? then Error else Panic;
      }
      var c := new Configuration(loaded.value);
      var stamped := SetHostnameIds(c, io.ids, io.writable);
      r := if stamped.Ok? then Ok(c) else Panic;
      assert MissesId(loaded.value) && stamped.Ok? && io.writable ==>
               Load(old(file), io) == Ok(Loaded(c.View(), Some(FileOf(c.View()).value), true));
      assert MissesId(loaded.value) && stamped.Ok? && !io.writable ==>
               Load(old(file), io) == Ok(Loaded(c.View(), old(file), false));
      assert !MissesId(loaded.value) ==> Load(old(file), io) == Ok(Loaded(loaded.value, old(file), false));
    }

    /** Without its directory the default configuration is not even completed. */
    method CreateDefault(io: Io) returns (c: Configuration)
      requires caches.Valid() && file == None
      modifies this`file, caches.Footprint()
      ensures caches.Valid() && fresh(c)
      ensures var l := Load(None, io).value;
              && c.View() == l.config && file == l.file
              && (if l.saved then AllFlushed() else unchanged(caches.Footprint()))
    {
      c := new Configuration(DEFAULT_CONFIG);
      if io.dirReady {
        var saved := SaveConfiguration(c, io.writable);
      }
    }

    /** Back to the defaults: the file is removed, if it can be, and the caches are flushed. */
    method ResetConf(removed: bool)
      requires caches.Valid()
      modifies this`file, caches.Footprint()
      ensures caches.Valid() && AllFlushed()
      ensures file == if removed then None else old(file)
    {
      if removed {
        file := None;
      }
      caches.ClearAllCaches();
    }

    /** The edits of the web interface: load, change the loaded object, save it if the change was accepted. */
    method EditConfiguration(edit: Edit, io: Io, writable: bool) returns (r: Outcome<()>)
      requires caches.Valid()
      modifies this`file, caches.Footprint()
      ensures caches.Valid()
      ensures var e := EditFile(old(file), edit, io, writable);
              && r == e.outcome && file == e.file
              && (if e.saved then AllFlushed() else unchanged(caches.Footprint()))
    {
      var loaded := LoadConfiguration(io);
      match loaded {
        case Error => return Error;
        case Panic => return Panic;
        case Ok(c) => r := ChangeAndSave(c, edit, writable);
      }
    }

    method ChangeAndSave(c: Configuration, edit: Edit, writable: bool) returns (r: Outcome<()>)
      requires caches.Valid()
      modifies c, this`file, caches.Footprint()
      ensures caches.Valid()
      ensures r.Ok? ==>
                r == Ok(()) && Apply(old(c.View()), edit).Ok? && FileToSave(Apply(old(c.View()), edit).value).Ok?
      ensures r.Ok? && writable ==> file == Some(FileToSave(Apply(old(c.View()), edit).value).value) && AllFlushed()
      ensures r.Error? <==> !Apply(old(c.View()), edit).Ok?
      ensures r.Panic? <==> Apply(old(c.View()), edit).Ok? && !FileToSave(Apply(old(c.View()), edit).value).Ok?
      ensures !r.Ok? || !writable ==> file == old(file) && unchanged(caches.Footprint())
    {
      var ok := Change(c, edit);
      if !ok {
        return Error;
      }
      r := SaveConfiguration(c, writable);
    }

    static method Change(c: Configuration, edit: Edit) returns (ok: bool)
      modifies c
      ensures ok == Apply(old(c.View()), edit).Ok?
      ensures c.View() == if ok then Apply(old(c.View()), edit).value else old(c.View())
    {
      match edit {
        case SetActive(env) => ok := c.SetActiveEnv(env);
        case AddEnv(env) => ok := c.AddEnvironment(env);
        case RemoveEnv(env) => ok := c.RemoveEnvByName(env);
        case AddHost(env, host, now) => ok := c.AddHostname(env, host, now);
        case UpdateHost(env, host) => ok := c.UpdateHostname(env, host);
        case RemoveHost(env, hostname) => ok := c.RemoveHostnameByEnvAndHostname(env, hostname);
      }
    }
  }
}
