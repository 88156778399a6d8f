/** Loading and saving the configuration file; every save flushes the caches. */
module LocalEvents {
  import opened Wrappers
  import opened Outcomes
  import opened Dns
  import opened DnsServer
  import opened IpUtils
  import opened KeyedList
  import opened LocalVo
  import opened LocalSolver
  import Candidates
  import StorageV1
  import StorageV2

  /** What the file holds, by its version field; JSON itself is taken as the identity. */
  datatype StoredFile =
    | V1(v1: StorageV1.ConfigurationV1)
    | V2(v2: StorageV2.ConfigurationV2)
    | Unrecognized

  function LoadVersionedConfiguration(f: StoredFile): Outcome<Config> {
    match f
    case V1(v) => StorageV1.ToConfig(v)
    case V2(v) => StorageV2.ToConfig(v)
    case Unrecognized => Error
  }

  const EMPTY_ENV := [Env("", [])]

  const NO_SETTINGS := Settings(0, 0, None, "", "", None, "", "")

  const DEFAULT_CONFIG := Config(2, [], [], "", NO_SETTINGS, Some(false), Some(false))

  /** A configuration without environments gets the empty one before it is saved. */
  function WithSomeEnv(c: Config): Config {
    if c.envs == [] then c.(envs := EMPTY_ENV) else c
  }

  function FileOf(c: Config): Outcome<StoredFile> {
    if c.version == 2 then Ok(V2(StorageV2.ValueOf(c)))
    else
      match StorageV1.ValueOf(c)
      case Ok(v) => Ok(V1(v))
      case _ => Panic
  }

  // ---- Missing ids ----

  /** The ids handed out by the clock, by position. */
  type Ids = (nat, nat) -> int

  function StampEnv(e: Env, i: nat, ids: Ids): (r: Env)
    ensures r.name == e.name && |r.hostnames| == |e.hostnames|
    ensures forall j :: 0 <= j < |e.hostnames| ==> r.hostnames[j] == WithId(e.hostnames[j], ids(i, j))
  {
    Env(e.name, seq(|e.hostnames|, j requires 0 <= j < |e.hostnames| => WithId(e.hostnames[j], ids(i, j))))
  }

  function Stamped(c: Config, ids: Ids): (r: Config)
    ensures |r.envs| == |c.envs| && forall i :: 0 <= i < |c.envs| ==> r.envs[i] == StampEnv(c.envs[i], i, ids)
    ensures r == c.(envs := r.envs)
  {
    c.(envs := seq(|c.envs|, i requires 0 <= i < |c.envs| => StampEnv(c.envs[i], i, ids)))
  }

  predicate MissesId(c: Config) {
    exists i, j :: 0 <= i < |c.envs| && 0 <= j < |c.envs[i].hostnames| && c.envs[i].hostnames[j].id == 0
  }

  // ---- Load, on values ----

  /** What a load depends on besides the file: the clock's ids, and whether directory and file can be written. */
  datatype Io = Io(ids: Ids, dirReady: bool, writable: bool)

  /** The configuration loaded, the file left behind, and whether that was saved anew. */
  datatype Loaded = Loaded(config: Config, file: Option<StoredFile>, saved: bool)

  /** A file that cannot be written is left as it is, and the load goes on. */
  function Load(file: Option<StoredFile>, io: Io): Outcome<Loaded> {
    match file
    case None =>
      if !io.dirReady then Ok(Loaded(DEFAULT_CONFIG, None, false))
      else
        var c := WithSomeEnv(DEFAULT_CONFIG);
        Ok(if io.writable then Loaded(c, Some(V2(StorageV2.ValueOf(c))), true) else Loaded(c, None, false))
    case Some(f) =>
      match LoadVersionedConfiguration(f)
      case Ok(c) =>
        if MissesId(c) then
          var stamped := Stamped(c, io.ids);
          (match FileOf(stamped)
           case Ok(g) => Ok(if io.writable then Loaded(stamped, Some(g), true) else Loaded(stamped, file, false))
           case _ => Panic)
        else Ok(Loaded(c, file, false))
      case Error => Error
      case Panic => Panic
  }

  // ---- What a load cannot change ----

  /** The configuration as the file stands; without a file the default one. */
  function Current(file: Option<StoredFile>): Outcome<Config> {
    match file
    case None => Ok(WithSomeEnv(DEFAULT_CONFIG))
    case Some(f) => LoadVersionedConfiguration(f)
  }

  /** What the uncached local solver answers from it. */
  function AnswerFrom(file: Option<StoredFile>, q: Question): Outcome<seq<Record>> {
    if q.name == "" then Panic
    else
      match Current(file)
      case Ok(c) => Solve(c, q)
      case Error => Error
      case Panic => Panic
  }

  /** Every candidate of every question is answered alike. */
  ghost predicate SameAnswers(c: Config, d: Config) {
    forall q, key :: SolveHostname(c, q, key) == SolveHostname(d, q, key)
  }

  /** The same answers before and after, from the configuration or from the lack of one. */
  ghost predicate SameCurrent(before: Option<StoredFile>, after: Option<StoredFile>) {
    match (Current(before), Current(after))
    case (Ok(c), Ok(d)) => SameAnswers(c, d)
    case (Error, Error) => true
    case (Panic, Panic) => true
    case _ => false
  }

  lemma {:induction false} SameFirst(c: Config, d: Config, q: Question, candidates: seq<string>)
    requires SameAnswers(c, d)
    ensures FirstAnswer(c, q, candidates) == FirstAnswer(d, q, candidates)
  {
    if candidates != [] {
      assert SolveHostname(c, q, candidates[0]) == SolveHostname(d, q, candidates[0]);
      SameFirst(c, d, q, candidates[1..]);
    }
  }

  lemma SameCurrentAnswers(before: Option<StoredFile>, after: Option<StoredFile>)
    requires SameCurrent(before, after)
    ensures forall q :: AnswerFrom(after, q) == AnswerFrom(before, q)
  {
    forall q: Question
      ensures AnswerFrom(after, q) == AnswerFrom(before, q)
    {
      if q.name != "" && Current(before).Ok? {
        SameFirst(Current(before).value, Current(after).value, q, Candidates.AllHosts("." + q.name[..|q.name| - 1]));
      }
    }
  }

  lemma {:induction false} SameKeysFind<T, K>(a: seq<T>, b: seq<T>, key: T -> K, k: K)
    requires |a| == |b| && forall i :: 0 <= i < |a| ==> key(a[i]) == key(b[i])
    ensures Find(a, key, k) == Find(b, key, k)
  {
    if a != [] {
      SameKeysFind(a[1..], b[1..], key, k);
    }
  }

  lemma StampedFinds(c: Config, ids: Ids, key: string)
    ensures var i := FindEnv(c.envs, c.activeEnv);
            && FindEnv(Stamped(c, ids).envs, c.activeEnv) == i
            && (i != -1 ==> FindHostname(Stamped(c, ids).envs[i], key) == FindHostname(c.envs[i], key))
  {
    var s, i := Stamped(c, ids), FindEnv(c.envs, c.activeEnv);
    SameKeysFind(c.envs, s.envs, EnvName, c.activeEnv);
    if i != -1 {
      SameKeysFind(c.envs[i].hostnames, s.envs[i].hostnames, HostName, key);
    }
  }

  lemma StampedAnswer(c: Config, ids: Ids, q: Question, key: string)
    ensures SolveHostname(Stamped(c, ids), q, key) == SolveHostname(c, q, key)
  {
    StampedFinds(c, ids, key);
  }

  /** Ids play no part in answering. */
  lemma StampedAnswers(c: Config, ids: Ids)
    ensures SameAnswers(Stamped(c, ids), c)
  {
    forall q, key
      ensures SolveHostname(Stamped(c, ids), q, key) == SolveHostname(c, q, key)
    {
      StampedAnswer(c, ids, q, key);
    }
  }

  /** A loaded configuration, ids filled in, is saved and loaded without loss. */
  lemma StampedReloads(f: StoredFile, ids: Ids)
    requires LoadVersionedConfiguration(f).Ok?
    ensures var c := Stamped(LoadVersionedConfiguration(f).value, ids);
            FileOf(c).Ok? && LoadVersionedConfiguration(FileOf(c).value) == Ok(c)
  {
    var c := LoadVersionedConfiguration(f).value;
    var s := Stamped(c, ids);
    match f {
      case V1(v) =>
        StorageV1.LoadedIsExact(v);
        forall i | 0 <= i < |s.envs|
          ensures StorageV1.ExactEnv(s.envs[i])
        {
          assert StorageV1.ExactEnv(c.envs[i]);
        }
        StorageV1.SaveLoadExact(s);
      case V2(v) =>
        StorageV2.LoadSaveLoad(v);
        StorageV2.RoundTrip(s);
    }
  }

  /**
   Loading may write the file, to fill in ids or to create it. A file that was saved loads as what was loaded, any
   other is left alone; every question is answered from the loaded configuration and from the file left behind as
   before. Loading fails only when the file does.
   */
  lemma LoadKeepsAnswers(file: Option<StoredFile>, io: Io)
    ensures match (Load(file, io), Current(file))
            case (Ok(l), Ok(c)) =>
              && SameAnswers(l.config, c) && SameCurrent(file, l.file)
              && (if l.saved then Current(l.file) == Ok(l.config) else l.file == file)
            case (Error, Error) => true
            case (Panic, Panic) => true
            case _ => false
  {
    match file {
      case None => StorageV2.RoundTrip(WithSomeEnv(DEFAULT_CONFIG));
      case Some(f) =>
        if LoadVersionedConfiguration(f).Ok? {
          StampedReloads(f, io.ids);
          StampedAnswers(LoadVersionedConfiguration(f).value, io.ids);
        }
    }
  }

  // ---- What is loaded ----

  predicate FilledIn(c: Config, d: Config, ids: Ids) {
    && d == c.(envs := d.envs) && |d.envs| == |c.envs|
    && forall i :: 0 <= i < |c.envs| ==> FilledInEnv(c.envs[i], d.envs[i], i, ids)
  }

  predicate FilledInEnv(e: Env, f: Env, i: nat, ids: Ids) {
    && f.name == e.name && |f.hostnames| == |e.hostnames|
    && forall j :: 0 <= j < |e.hostnames| ==>
         f.hostnames[j] == e.hostnames[j].(id := if e.hostnames[j].id == 0 then ids(i, j) else e.hostnames[j].id)
  }

  lemma StampedFillsIn(c: Config, ids: Ids)
    ensures FilledIn(c, Stamped(c, ids), ids)
  {
    forall i | 0 <= i < |c.envs|
      ensures FilledInEnv(c.envs[i], Stamped(c, ids).envs[i], i, ids)
    {
      assert Stamped(c, ids).envs[i] == StampEnv(c.envs[i], i, ids);
    }
  }

  lemma NothingMissing(c: Config, ids: Ids)
    requires !MissesId(c)
    ensures FilledIn(c, c, ids)
  {
  }

  /** A load fills in the missing ids and nothing else, and saves when one was missing. */
  lemma LoadFillsIds(f: StoredFile, io: Io)
    requires Load(Some(f), io).Ok?
    ensures var c, l := LoadVersionedConfiguration(f).value, Load(Some(f), io).value;
            && FilledIn(c, l.config, io.ids)
            && (l.saved <==>
                io.writable && exists i, j :: 0 <= i < |c.envs| && 0 <= j < |c.envs[i].hostnames| &&
                                              c.envs[i].hostnames[j].id == 0)
  {
    var c := LoadVersionedConfiguration(f).value;
    if MissesId(c) {
      StampedFillsIn(c, io.ids);
    } else {
      NothingMissing(c, io.ids);
    }
  }

  /** Without a file there are no entries, whose only environment goes into a new file. */
  lemma DefaultLoaded(io: Io)
    ensures match Load(None, io)
            case Ok(l) =>
              && l.config.version == 2 && l.config.remoteDnsServers == [] && l.config.activeEnv == ""
              && l.config.dpsNetwork == l.config.dpsNetworkAutoConnect == Some(false)
              && l.config.envs == (if io.dirReady then [Env("", [])] else [])
              && (l.saved <==> io.dirReady && io.writable) && (l.file.Some? <==> l.saved)
            case _ => false
  {
  }

  // ---- From the file to the answer ----

  lemma {:induction false} FindMapped<T, U, K>(xs: seq<T>, f: T -> U, keyT: T -> K, keyU: U -> K, k: K)
    requires forall i :: 0 <= i < |xs| ==> keyU(f(xs[i])) == keyT(xs[i])
    ensures Find(MapSeq(xs, f), keyU, k) == Find(xs, keyT, k)
  {
    if xs != [] {
      FindMapped(xs[1..], f, keyT, keyU, k);
      assert MapSeq(xs, f)[1..] == MapSeq(xs[1..], f);
    }
  }

  function NameV1(e: StorageV1.EnvV1): string { e.name }
  function HostV1(h: StorageV1.HostnameV1): string { h.hostname }
  function NameV2(e: StorageV2.EnvV2): string { e.name }
  function HostV2(h: StorageV2.HostnameV2): string { h.hostname }

  /**
   An entry of a version 1 file, the first of its name in the first environment with the active name, is answered
   as the file writes it.
   */
  lemma V1Answers(v: StorageV1.ConfigurationV1, q: Question, i: nat, j: nat)
    requires i == Find(v.envs, NameV1, v.activeEnv) < |v.envs| && j < |v.envs[i].hostnames|
    requires j == Find(v.envs[i].hostnames, HostV1, v.envs[i].hostnames[j].hostname)
    requires 0 <= v.envs[i].hostnames[j].ttl < 0x1_0000_0000
    ensures var h := v.envs[i].hostnames[j];
            var loaded := LoadVersionedConfiguration(V1(v));
            && loaded.Ok?
            && (h.entryType in {A, ""} ==>
                SolveHostname(loaded.value, q, h.hostname) ==
                Ok([Record(q.name, TYPE_A, CLASS_INET, h.ttl, Address(h.ip))]))
            && (h.entryType == CNAME ==>
                SolveHostname(loaded.value, q, h.hostname) ==
                Ok([Record(q.name, TYPE_CNAME, CLASS_ALIAS, h.ttl, Target(h.target + "."))]))
  {
    StorageV1.RoundTrip(v);
    var c, h := StorageV1.ToConfig(v).value, v.envs[i].hostnames[j];
    FindMapped(v.envs, StorageV1.ToEnv, NameV1, EnvName, v.activeEnv);
    FindMapped(v.envs[i].hostnames, StorageV1.ToHostname, HostV1, HostName, h.hostname);
    assert c.envs[i].hostnames[j] == StorageV1.ToHostname(h);
    AnswerContents(c, q, h.hostname, h.ip);
  }

  /** The same for a version 2 file, where the address is text. */
  lemma V2Answers(v: StorageV2.ConfigurationV2, q: Question, i: nat, j: nat, ip: Quad)
    requires i == Find(v.envs, NameV2, v.activeEnv) < |v.envs| && j < |v.envs[i].hostnames|
    requires j == Find(v.envs[i].hostnames, HostV2, v.envs[i].hostnames[j].hostname)
    requires 0 <= v.envs[i].hostnames[j].ttl < 0x1_0000_0000
    requires LoadVersionedConfiguration(V2(v)).Ok?
    ensures var h := v.envs[i].hostnames[j];
            var c := LoadVersionedConfiguration(V2(v)).value;
            && (h.entryType in {A, ""} && h.ip == ToIpString(ip) ==>
                SolveHostname(c, q, h.hostname) == Ok([Record(q.name, TYPE_A, CLASS_INET, h.ttl, Address(ip))]))
            && (h.entryType == CNAME ==>
                SolveHostname(c, q, h.hostname) ==
                Ok([Record(q.name, TYPE_CNAME, CLASS_ALIAS, h.ttl, Target(h.target + "."))]))
  {
    var c, h := StorageV2.ToConfig(v).value, v.envs[i].hostnames[j];
    FindMapped(v.envs, StorageV2.ToEnv, NameV2, EnvName, v.activeEnv);
    FindMapped(v.envs[i].hostnames, StorageV2.ToHostname, HostV2, HostName, h.hostname);
    assert c.envs[i].hostnames[j] == StorageV2.ToHostname(h);
    AnswerContents(c, q, h.hostname, ip);
  }

  // ---- The local solver, which loads the file anew for every candidate ----

  datatype LocalRun = LocalRun(answer: Outcome<seq<Record>>, file: Option<StoredFile>, saved: bool)

  function SolveLoading(file: Option<StoredFile>, q: Question, candidates: seq<string>, ios: nat -> Io, k: nat)
    : LocalRun
    decreases |candidates|
  {
    if candidates == [] then LocalRun(Error, file, false)
    else
      match Load(file, ios(k))
      case Panic => LocalRun(Panic, file, false)
      case Error => SolveLoading(file, q, candidates[1..], ios, k + 1)
      case Ok(l) =>
        var answer := SolveHostname(l.config, q, candidates[0]);
        if !answer.Error? then LocalRun(answer, l.file, l.saved)
        else
          var later := SolveLoading(l.file, q, candidates[1..], ios, k + 1);
          later.(saved := later.saved || l.saved)
  }

  function SolveLocal(file: Option<StoredFile>, q: Question, ios: nat -> Io): LocalRun {
    if q.name == "" then LocalRun(Panic, file, false)
    else SolveLoading(file, q, Candidates.AllHosts("." + q.name[..|q.name| - 1]), ios, 0)
  }

  lemma {:induction false} LoadingAnswers(file: Option<StoredFile>, q: Question, candidates: seq<string>,
                                          ios: nat -> Io, k: nat)
    ensures var r := SolveLoading(file, q, candidates, ios, k);
            && SameCurrent(file, r.file)
            && (r.file != file ==> r.saved)
            && r.answer ==
               match Current(file)
               case Ok(c) => FirstAnswer(c, q, candidates)
               case Error => Error
               case Panic => if candidates == [] then Error else Panic
    decreases |candidates|
  {
    if candidates != [] {
      LoadKeepsAnswers(file, ios(k));
      match Load(file, ios(k)) {
        case Panic =>
        case Error => LoadingAnswers(file, q, candidates[1..], ios, k + 1);
        case Ok(l) =>
          LoadingAnswers(l.file, q, candidates[1..], ios, k + 1);
          SameFirst(l.config, Current(file).value, q, candidates[1..]);
          assert SolveHostname(l.config, q, candidates[0]) == SolveHostname(Current(file).value, q, candidates[0]);
      }
    }
  }

  /**
   However often it loads and saves on the way, the local solver answers from the configuration as it was,
   and leaves a file that answers every question the same. A file that changed was saved, hence flushed.
   */
  lemma SolveLocalAnswers(file: Option<StoredFile>, q: Question, ios: nat -> Io)
    ensures var r := SolveLocal(file, q, ios);
            && r.answer == AnswerFrom(file, q)
            && (r.file != file ==> r.saved)
            && forall p :: AnswerFrom(r.file, p) == AnswerFrom(file, p)
  {
    var r := SolveLocal(file, q, ios);
    if q.name != "" {
      LoadingAnswers(file, q, Candidates.AllHosts("." + q.name[..|q.name| - 1]), ios, 0);
      SameCurrentAnswers(file, r.file);
    }
  }

  // ---- Edits: load, change, save ----

  function FileToSave(c: Config): Outcome<StoredFile> {
    FileOf(WithSomeEnv(c))
  }

  datatype Edited = Edited(outcome: Outcome<()>, file: Option<StoredFile>, saved: bool)

  /**
   A refused edit, or one that cannot be converted, still leaves what loading saved. An edit whose file cannot be
   written reports success.
   */
  function EditFile(file: Option<StoredFile>, edit: Edit, io: Io, writable: bool): Edited {
    match Load(file, io)
    case Error => Edited(Error, file, false)
    case Panic => Edited(Panic, file, false)
    case Ok(l) =>
      match Apply(l.config, edit)
      case Ok(c) =>
        (match FileToSave(c)
         case Ok(f) => if writable then Edited(Ok(()), Some(f), true) else Edited(Ok(()), l.file, l.saved)
         case _ => Edited(Panic, l.file, l.saved))
      case _ => Edited(Error, l.file, l.saved)
  }

  lemma UnsavedEditKeepsFile(file: Option<StoredFile>, edit: Edit, io: Io, writable: bool)
    ensures EditFile(file, edit, io, writable).saved || EditFile(file, edit, io, writable).file == file
  {
  }

  predicate AllPrintable(servers: seq<DNSServer>) {
    forall i :: 0 <= i < |servers| ==> StorageV2.Printable(servers[i])
  }

  lemma LoadedServersPrint(file: Option<StoredFile>)
    requires Current(file).Ok?
    ensures var c := Current(file).value;
            && (c.version == 1 || c.version == 2)
            && (c.version == 2 ==> AllPrintable(c.remoteDnsServers))
  {
    if file.Some? && file.value.V2? {
      StorageV2.LoadSaveLoad(file.value.v2);
    }
  }

  lemma EditKeepsServers(c: Config, edit: Edit)
    requires Apply(c, edit).Ok?
    ensures var edited := WithSomeEnv(Apply(c, edit).value);
            edited.version == c.version && edited.remoteDnsServers == c.remoteDnsServers
  {
  }

  lemma SavedFileHolds(c: Config)
    requires FileOf(c).Ok? && (c.version == 1 || c.version == 2)
    requires c.version == 2 ==> AllPrintable(c.remoteDnsServers)
    ensures Current(Some(FileOf(c).value)) == Ok(c) <==> c.version == 2 || StorageV1.Exact(c)
  {
    if c.version == 2 {
      StorageV2.RoundTrip(c);
    } else {
      StorageV1.SaveLoadExact(c);
    }
  }

  lemma LoadedPrints(file: Option<StoredFile>, io: Io)
    requires Load(file, io).Ok?
    ensures var c := Load(file, io).value.config;
            && (c.version == 1 || c.version == 2)
            && (c.version == 2 ==> AllPrintable(c.remoteDnsServers))
  {
    LoadKeepsAnswers(file, io);
    LoadedServersPrint(file);
  }

  /**
   After a successful edit whose file could be written, the file loads as the edited configuration, always in
   version 2, and in version 1 exactly when that version can hold it: an address it cannot hold is silently turned
   into another one.
   */
  lemma EditPersists(file: Option<StoredFile>, edit: Edit, io: Io)
    requires EditFile(file, edit, io, true).outcome.Ok?
    ensures var applied := Apply(Load(file, io).value.config, edit).value;
            var edited := if applied.envs == [] then applied.(envs := [Env("", [])]) else applied;
            Current(EditFile(file, edit, io, true).file) == Ok(edited) <==>
            edited.version == 2 || StorageV1.Exact(edited)
  {
    var c := Load(file, io).value.config;
    LoadedPrints(file, io);
    EditKeepsServers(c, edit);
    SavedFileHolds(WithSomeEnv(Apply(c, edit).value));
  }

  /** An edit whose file could not be written is lost, successful or not: every question is answered as before. */
  lemma UnwritableEditLost(file: Option<StoredFile>, edit: Edit, io: Io)
    ensures EditFile(file, edit, io, false).outcome == EditFile(file, edit, io, true).outcome
    ensures SameCurrent(file, EditFile(file, edit, io, false).file)
  {
    LoadKeepsAnswers(file, io);
  }
}
