/**
 Runs of container events. Each container keeps its list of hostnames; a start registers them with the address
 chosen for it, an end (stop or die, or one after the other) removes them, lookups touch the cache.
 */
module RegistryRuns {
  import opened Wrappers
  import opened Dns
  import opened IpUtils
  import opened DockerNetwork
  import opened DockerEvents
  import opened Lru
  import Candidates
  import DockerSolver

  // Hostnames by container.
  type Names = map<nat, seq<string>>

  datatype Event = Started(id: nat, ip: string) | Ended(id: nat) | Looked(host: string)

  datatype State = State(registry: Store<string>, running: map<nat, string>)

  const EMPTY := State(Store(map[], []), map[])

  predicate Known(names: Names, events: seq<Event>) {
    forall i :: 0 <= i < |events| && !events[i].Looked? ==> events[i].id in names
  }

  function Step(names: Names, size: nat, s: State, e: Event): State
    requires !e.Looked? ==> e.id in names
  {
    match e
    case Started(id, ip) => State(PutAll(s.registry, size, names[id], ip), s.running[id := ip])
    case Ended(id) => State(RemoveAll(s.registry, names[id]), s.running - {id})
    case Looked(host) => s.(registry := Touch(s.registry, host))
  }

  function Run(names: Names, size: nat, events: seq<Event>): State
    requires Known(names, events)
  {
    if events == [] then EMPTY
    else
      var last := |events| - 1;
      Step(names, size, Run(names, size, events[..last]), events[last])
  }

  /** The registry is the union over running containers of their hostnames, with their latest address. */
  ghost predicate Correct(names: Names, s: State) {
    && (forall id, h :: id in s.running && id in names && h in names[id] ==>
          h in s.registry.entries && s.registry.entries[h] == s.running[id])
    && (forall h :: h in s.registry.entries ==> exists id :: id in s.running && id in names && h in names[id])
  }

  ghost predicate Disjoint(names: Names) {
    forall a, b, h :: a in names && b in names && h in names[a] && h in names[b] ==> a == b
  }

  function AllNames(names: Names): set<string> {
    set id, h | id in names && h in names[id] :: h
  }

  // ---- Room for everything: nothing is dropped ----

  ghost predicate Fits(s: Store<string>, size: nat, all: set<string>) {
    size >= 1 && Consistent(s, size) && s.entries.Keys <= all && |all| <= size
  }

  lemma FewKeys(s: Store<string>, all: set<string>)
    requires s.entries.Keys <= all
    ensures |s.entries| <= |all|
    ensures forall h :: h in all && h !in s.entries ==> |s.entries| < |all|
  {
    Subset(s.entries.Keys, all);
    forall h | h in all && h !in s.entries
      ensures |s.entries| < |all|
    {
      Subset(s.entries.Keys, all - {h});
    }
  }

  lemma Subset<T>(a: set<T>, b: set<T>)
    requires a <= b
    ensures |a| <= |b|
  {
    assert |b| == |a| + |b - a| by {
      assert b == a + (b - a);
    }
  }

  lemma AddedFits(s: Store<string>, size: nat, all: set<string>, host: string, ip: string)
    requires Fits(s, size, all) && host in all
    ensures Fits(Added(s, size, host, ip), size, all)
    ensures Added(s, size, host, ip).entries == s.entries[host := ip]
  {
    FewKeys(s, all);
    AddedKeeps(s, size, host, ip);
  }

  function Hosts(hosts: seq<string>): set<string> {
    set h | h in hosts
  }

  function Overlay(entries: map<string, string>, hosts: set<string>, ip: string): map<string, string> {
    entries + map h | h in hosts :: ip
  }

  lemma PutAllMore(s: Store<string>, size: nat, front: seq<string>, last: string, ip: string)
    ensures PutAll(s, size, front + [last], ip) == Added(PutAll(s, size, front, ip), size, last, ip)
  {
    assert (front + [last])[..|front|] == front;
  }

  lemma OverlayMore(entries: map<string, string>, front: seq<string>, last: string, ip: string)
    ensures Overlay(entries, Hosts(front), ip)[last := ip] == Overlay(entries, Hosts(front + [last]), ip)
    ensures Hosts(front + [last]) == Hosts(front) + {last}
  {
    assert Hosts(front + [last]) == Hosts(front) + {last};
  }

  lemma {:induction false} PutAllFits(s: Store<string>, size: nat, all: set<string>, hosts: seq<string>, ip: string)
    requires Fits(s, size, all) && Hosts(hosts) <= all
    ensures Fits(PutAll(s, size, hosts, ip), size, all)
    ensures PutAll(s, size, hosts, ip).entries == Overlay(s.entries, Hosts(hosts), ip)
  {
    if hosts == [] {
      assert Hosts(hosts) == {};
      assert Overlay(s.entries, {}, ip) == s.entries;
    } else {
      var front, last := hosts[..|hosts| - 1], hosts[|hosts| - 1];
      assert hosts == front + [last];
      OverlayMore(s.entries, front, last, ip);
      PutAllFits(s, size, all, front, ip);
      AddedFits(PutAll(s, size, front, ip), size, all, last, ip);
      PutAllMore(s, size, front, last, ip);
    }
  }

  lemma {:induction false} RemoveAllRemoves(s: Store<string>, size: nat, hosts: seq<string>)
    requires Consistent(s, size)
    ensures Consistent(RemoveAll(s, hosts), size)
    ensures RemoveAll(s, hosts).entries == s.entries - Hosts(hosts)
  {
    if hosts != [] {
      var front, last := hosts[..|hosts| - 1], hosts[|hosts| - 1];
      assert hosts == front + [last];
      assert Hosts(hosts) == Hosts(front) + {last};
      RemoveAllRemoves(s, size, front);
      DeletedKeeps(RemoveAll(s, front), size, last);
    }
  }

  // ---- Every run is correct when hostnames are disjoint and fit ----

  lemma StartCorrect(names: Names, s: State, t: State, id: nat, ip: string)
    requires Disjoint(names) && Correct(names, s) && id in names
    requires t.registry.entries == Overlay(s.registry.entries, Hosts(names[id]), ip) && t.running == s.running[id := ip]
    ensures Correct(names, t)
  {
    forall h | h in t.registry.entries
      ensures exists other :: other in t.running && other in names && h in names[other]
    {
      if h in names[id] {
        assert id in t.running;
      } else {
        var other :| other in s.running && other in names && h in names[other];
        assert other in t.running;
      }
    }
  }

  lemma EndCorrect(names: Names, s: State, t: State, id: nat)
    requires Disjoint(names) && Correct(names, s) && id in names
    requires t.registry.entries == s.registry.entries - Hosts(names[id]) && t.running == s.running - {id}
    ensures Correct(names, t)
  {
    forall h | h in t.registry.entries
      ensures exists other :: other in t.running && other in names && h in names[other]
    {
      var other :| other in s.running && other in names && h in names[other];
      assert other != id;
      assert other in t.running;
    }
  }

  ghost predicate Good(names: Names, size: nat, s: State) {
    Fits(s.registry, size, AllNames(names)) && Correct(names, s) && s.running.Keys <= names.Keys
  }

  lemma StartStep(names: Names, size: nat, s: State, id: nat, ip: string)
    requires id in names && Disjoint(names) && Good(names, size, s)
    ensures Good(names, size, Step(names, size, s, Started(id, ip)))
  {
    PutAllFits(s.registry, size, AllNames(names), names[id], ip);
    StartCorrect(names, s, Step(names, size, s, Started(id, ip)), id, ip);
  }

  lemma EndStep(names: Names, size: nat, s: State, id: nat)
    requires id in names && Disjoint(names) && Good(names, size, s)
    ensures Good(names, size, Step(names, size, s, Ended(id)))
  {
    RemoveAllRemoves(s.registry, size, names[id]);
    EndCorrect(names, s, Step(names, size, s, Ended(id)), id);
  }

  lemma LookStep(names: Names, size: nat, s: State, host: string)
    requires Good(names, size, s)
    ensures Good(names, size, Step(names, size, s, Looked(host)))
  {
    TouchKeeps(s.registry, size, host);
  }

  lemma {:induction false} RunCorrect(names: Names, size: nat, events: seq<Event>)
    requires Known(names, events) && Disjoint(names) && |AllNames(names)| <= size && size >= 1
    ensures Good(names, size, Run(names, size, events))
  {
    if events != [] {
      var last := |events| - 1;
      RunCorrect(names, size, events[..last]);
      var s := Run(names, size, events[..last]);
      match events[last] {
        case Started(id, ip) => StartStep(names, size, s, id, ip);
        case Ended(id) => EndStep(names, size, s, id);
        case Looked(host) => LookStep(names, size, s, host);
      }
    }
  }

  // ---- And only then ----

  lemma {:induction false} PutAllConsistent(s: Store<string>, size: nat, hosts: seq<string>, ip: string)
    requires Consistent(s, size) && size >= 1
    ensures Consistent(PutAll(s, size, hosts, ip), size)
  {
    if hosts != [] {
      PutAllConsistent(s, size, hosts[..|hosts| - 1], ip);
      AddedKeeps(PutAll(s, size, hosts[..|hosts| - 1], ip), size, hosts[|hosts| - 1], ip);
    }
  }

  lemma {:induction false} RunConsistent(names: Names, size: nat, events: seq<Event>)
    requires Known(names, events) && size >= 1
    ensures Consistent(Run(names, size, events).registry, size)
  {
    if events != [] {
      var last := |events| - 1;
      var s := Run(names, size, events[..last]);
      RunConsistent(names, size, events[..last]);
      match events[last] {
        case Started(id, ip) => PutAllConsistent(s.registry, size, names[id], ip);
        case Ended(id) => RemoveAllRemoves(s.registry, size, names[id]);
        case Looked(host) => TouchKeeps(s.registry, size, host);
      }
    }
  }

  /** A shared hostname disappears with the first of its containers to end. */
  lemma SharedNameLost(names: Names, size: nat, a: nat, b: nat, h: string)
    requires a in names && b in names && a != b && h in names[a] && h in names[b] && size >= 1
    ensures var events := [Started(a, ""), Started(b, ""), Ended(b)];
            Known(names, events) && !Correct(names, Run(names, size, events))
  {
    var events := [Started(a, ""), Started(b, ""), Ended(b)];
    assert events[..2][..1][..0] == [] && events[..2][..1] == [Started(a, "")];
    assert events[..2] == [Started(a, ""), Started(b, "")];
    var s := Run(names, size, events[..2]);
    RunConsistent(names, size, events[..2]);
    RemoveAllRemoves(s.registry, size, names[b]);
    var t := Run(names, size, events);
    assert t.running == s.running - {b};
    assert s.running == Run(names, size, events[..2][..1]).running[b := ""];
    assert a in t.running;
    assert h !in t.registry.entries;
  }

  lemma {:induction false} StartThem(names: Names, size: nat, ids: set<nat>) returns (events: seq<Event>)
    requires ids <= names.Keys
    ensures Known(names, events) && Run(names, size, events).running.Keys == ids
    decreases |ids|
  {
    if ids == {} {
      events := [];
    } else {
      var id :| id in ids;
      var before := StartThem(names, size, ids - {id});
      events := before + [Started(id, "")];
      assert events[..|events| - 1] == before;
    }
  }

  /**
   Every run leaves the registry exactly right if and only if no hostname is shared and all hostnames
   together fit into the cache.
   */
  lemma RegistryLaw(names: Names, size: nat)
    requires size >= 1
    ensures (forall events :: Known(names, events) ==> Correct(names, Run(names, size, events))) <==>
            Disjoint(names) && |AllNames(names)| <= size
  {
    if Disjoint(names) && |AllNames(names)| <= size {
      forall events | Known(names, events)
        ensures Correct(names, Run(names, size, events))
      {
        RunCorrect(names, size, events);
      }
    } else if !Disjoint(names) {
      var a, b, h :| a in names && b in names && h in names[a] && h in names[b] && a != b;
      SharedNameLost(names, size, a, b, h);
    } else {
      var events := StartThem(names, size, names.Keys);
      var s := Run(names, size, events);
      RunConsistent(names, size, events);
      if Correct(names, s) {
        TooMany(names, size, s);
      }
    }
  }

  lemma TooMany(names: Names, size: nat, s: State)
    requires Correct(names, s) && s.running.Keys == names.Keys && Consistent(s.registry, size)
    ensures |AllNames(names)| <= size
  {
    KeyCount(s.registry, size);
    assert AllNames(names) <= s.registry.entries.Keys;
    Subset(AllNames(names), s.registry.entries.Keys);
  }

  // ---- What a run means to those who ask ----

  /** A container runs with the address of its last start, unless it ended since. */
  predicate LatestStart(events: seq<Event>, id: nat, ip: string, i: nat) {
    && i < |events| && events[i] == Started(id, ip)
    && forall j :: i < j < |events| ==> !(events[j].Started? && events[j].id == id) && events[j] != Ended(id)
  }

  ghost predicate HasLatest(events: seq<Event>, id: nat, ip: string) {
    exists i :: LatestStart(events, id, ip, i)
  }

  lemma LatestStartStays(events: seq<Event>, id: nat, ip: string)
    requires events != [] && events[|events| - 1] != Started(id, ip)
    ensures HasLatest(events, id, ip) <==>
            !(events[|events| - 1].Started? && events[|events| - 1].id == id) && events[|events| - 1] != Ended(id) &&
            HasLatest(events[..|events| - 1], id, ip)
  {
    var last := |events| - 1;
    var before := events[..last];
    if i :| LatestStart(events, id, ip, i) {
      assert LatestStart(before, id, ip, i);
    }
    if !(events[last].Started? && events[last].id == id) && events[last] != Ended(id) {
      if i :| LatestStart(before, id, ip, i) {
        assert LatestStart(events, id, ip, i);
      }
    }
  }

  lemma {:induction false} RunningIsLatest(names: Names, size: nat, events: seq<Event>, id: nat, ip: string)
    requires Known(names, events)
    ensures var running := Run(names, size, events).running;
            id in running && running[id] == ip <==> HasLatest(events, id, ip)
  {
    if events != [] {
      var last := |events| - 1;
      RunningIsLatest(names, size, events[..last], id, ip);
      if events[last] == Started(id, ip) {
        assert LatestStart(events, id, ip, last);
      } else {
        LatestStartStays(events, id, ip);
      }
    }
  }

  /**
   After every run, a question for a hostname of a running container is answered with the four bytes of the
   address chosen at its latest start.
   */
  lemma RunningAnswered(names: Names, size: nat, events: seq<Event>, id: nat, h: string, ip: Quad, i: nat, q: Question)
    requires Known(names, events) && Disjoint(names) && |AllNames(names)| <= size && size >= 1
    requires LatestStart(events, id, ToIpString(ip), i) && h in names[id] && q.name == h + "."
    ensures DockerSolver.Solve(Run(names, size, events).registry.entries, q) ==
            Ok([Record(q.name, TYPE_A, CLASS_INET, 0, Address(ip))])
  {
    var entries := Run(names, size, events).registry.entries;
    RunCorrect(names, size, events);
    RunningIsLatest(names, size, events, id, ToIpString(ip));
    assert q.name[..|q.name| - 1] == h && entries[h] == ToIpString(ip);
    DockerSolver.SolveLaw(entries, q);
    DockerSolver.PrintedAddress(entries, h, q, ip);
  }

  /** A container started without any address, as on the host's network, crashes every question for its hostnames. */
  lemma AddresslessCrashes(names: Names, size: nat, events: seq<Event>, id: nat, h: string, i: nat, q: Question)
    requires Known(names, events) && Disjoint(names) && |AllNames(names)| <= size && size >= 1
    requires LatestStart(events, id, "", i) && h in names[id] && q.name == h + "."
    ensures DockerSolver.Solve(Run(names, size, events).registry.entries, q).Panic?
  {
    var entries := Run(names, size, events).registry.entries;
    RunCorrect(names, size, events);
    RunningIsLatest(names, size, events, id, "");
    assert q.name[..|q.name| - 1] == h && entries[h] == "";
    DockerSolver.SolveLaw(entries, q);
  }

  ghost predicate Runs(names: Names, s: State, h: string) {
    exists id :: id in s.running && id in names && h in names[id]
  }

  /** A question is answered exactly when its name, or a dot suffix of it, is a hostname of a running container. */
  lemma OnlyRunningAnswered(names: Names, size: nat, events: seq<Event>, q: Question)
    requires Known(names, events) && Disjoint(names) && |AllNames(names)| <= size && size >= 1 && q.name != ""
    ensures var s, name := Run(names, size, events), q.name[..|q.name| - 1];
            !DockerSolver.Solve(s.registry.entries, q).Error? <==>
            Runs(names, s, name) || exists h :: Candidates.IsDotSuffix("." + name, h) && Runs(names, s, h)
  {
    var s := Run(names, size, events);
    RunCorrect(names, size, events);
    RegisteredRuns(names, s);
    DockerSolver.SolveLaw(s.registry.entries, q);
  }

  lemma RegisteredRuns(names: Names, s: State)
    requires Correct(names, s)
    ensures forall h :: h in s.registry.entries <==> Runs(names, s, h)
  {
  }

  // ---- What one event registers ----

  /**
   With room for all names, a start maps exactly the container's names to its address and leaves the others; an end
   removes exactly its names.
   */
  lemma EventRegisters(i: Inspection, conf: Conf, s: Store<string>, size: nat, ip: string)
    requires GetHostnames(i, conf).Ok? && Consistent(s, size) && size >= 1
    requires |s.entries.Keys + Hosts(GetHostnames(i, conf).value)| <= size
    ensures var started, ended := PutAll(s, size, GetHostnames(i, conf).value, ip).entries,
                                  RemoveAll(s, GetHostnames(i, conf).value).entries;
            forall h ::
              && (NamedBy(i, conf, h) ==> h in started && started[h] == ip && h !in ended)
              && (!NamedBy(i, conf, h) ==>
                  && (h in started <==> h in s.entries) && (h in ended <==> h in s.entries)
                  && (h in s.entries ==> started[h] == ended[h] == s.entries[h]))
  {
    var hosts := GetHostnames(i, conf).value;
    HostnamesAre(i, conf);
    PutAllFits(s, size, s.entries.Keys + Hosts(hosts), hosts, ip);
    RemoveAllRemoves(s, size, hosts);
  }

  // ---- The objects take these steps ----

  /** A handled event of a container with these hostnames is a step of the run; a panic is none. */
  method Handle(registry: ContainerRegistry, action: string, first: Option<Inspection>, conf: Conf,
                second: Option<Inspection>, drivers: Drivers, ghost names: Names, ghost id: nat, ghost s: State)
    returns (r: Outcome<string>, ghost t: State)
    requires registry.c.Valid() && registry.c.View() == s.registry && id in names
    requires first.Some? && GetHostnames(first.value, conf).Ok? ==> GetHostnames(first.value, conf).value == names[id]
    modifies registry.c
    ensures registry.c.Valid() && registry.c.View() == t.registry
    ensures t == if r.Ok? && action == "start" then Step(names, registry.c.size, s, Started(id, r.value))
                 else if r.Ok? && (action == "stop" || action == "die") then Step(names, registry.c.size, s, Ended(id))
                 else s
    ensures r.Ok? && action == "start" ==> second.Some? && BestIp(second.value, drivers, r.value)
  {
    r := registry.HandleEvent(action, first, conf, second, drivers);
    t := if r.Ok? && action == "start" then Step(names, registry.c.size, s, Started(id, r.value))
         else if r.Ok? && (action == "stop" || action == "die") then Step(names, registry.c.size, s, Ended(id))
         else s;
  }

  /** So is an answered question; any other leaves the registry as it is. */
  method Answer(registry: ContainerRegistry, q: Question, ghost names: Names, ghost s: State)
    returns (r: Outcome<seq<Record>>, ghost t: State)
    requires registry.c.Valid() && registry.c.View() == s.registry
    modifies registry.c`recency
    ensures registry.c.Valid() && registry.c.View() == t.registry
    ensures r == DockerSolver.Solve(s.registry.entries, q)
    ensures t == s || exists host :: t == Step(names, registry.c.size, s, Looked(host))
  {
    r := DockerSolver.SolveFromCache(registry.c, q);
    t := s.(registry := registry.c.View());
    if q.name != "" {
      var key := DockerSolver.FoundKey(s.registry.entries, Candidates.AllHosts("." + q.name[..|q.name| - 1]));
      assert key.Some? ==> t == Step(names, registry.c.size, s, Looked(key.value));
    }
  }
}
