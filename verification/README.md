# dns-proxy-server in Dafny

A verified model of five connected parts of the DNS proxy: rewriting `resolv.conf`, the answer cache with its
time-to-live arithmetic, wildcard lookup and alias following, the configuration store with its two file formats, and
the registry of running containers. Code that updates state step by step is modelled with classes, arrays and loops
and proved against a specification function on values; the laws are lemmas about those functions. Characters stand
for bytes, times and durations are integers in nanoseconds, a Go panic is the outcome `Panic` and a Go error is
`Error`.

| modules | what they model |
|---|---|
| `Wrappers`, `Outcomes`, `GoStrings`, `KeyedList` | outcomes, list conversion loops, the string and number functions of Go, lists looked up by key |
| `Resolvconf`, `ResolvconfLaws`, `ResolvconfRuns`, `ResolvServers` | `resolvconf/`: classifier, handlers, scanner, rewrite loop; laws for lines, bytes and runs; the servers a resolver then reads |
| `Dns`, `Lru`, `LruRuns`, `Ttl`, `TimedCache`, `CacheSolver` | messages as objects, the LRU cache and its runs, TTL arithmetic, the expiring cache, the flush of all caches, the caching solver |
| `CacheInterleaving`, `CacheFlush` | any number of requests interleaved at single cache calls and clock reads; what a flush reaches |
| `Candidates`, `LocalSolver`, `DockerSolver`, `Factory`, `ProxyChain` | `proxy/`: candidate names, local and container answers, the solver chain, alias following |
| `LocalVo`, `LocalVoRefinement`, `IpUtils`, `DnsServer`, `StorageV1`, `StorageV2` | the configuration object, its map abstraction, address printing and parsing, the file formats |
| `LocalEvents`, `LocalStore`, `CoherentRuns`, `CachedLocalSolver` | load, edit, save and flush; agreement of the cached with the uncached local solver |
| `ConcurrentRuns`, `ConcurrentLaws` | the same for any number of requests and edits at once, at the level of single loads of the file |
| `DockerNetwork`, `DockerEvents`, `RegistryRuns` | choice of a container's address, the registry object, runs of container events |

## What is proved

- **resolv.conf.** `RunLaw`: for a given file, every word of set and restore steps ends in the original bytes (empty
  word or last step a restore) or in one set of the last address on the original, if and only if the file is clean:
  newline-terminated or empty, no line ending in a carriage return, no own entries, no commented servers, and every
  server line is `nameserver` alone or followed by a blank and free of ` # dps-comment`. A tab after the keyword is
  not undone (`TabbedServerIsLost`). On lines, setting twice is setting once with no condition at all; on bytes
  exactly when no kept line ends in a carriage return, because the scanner eats one per run. The cleaner panics
  exactly when a commented server line lacks the marker. Read the way a resolver reads it, the file names the address
  set and no other exactly when that address is one word (`SetFileServes`, `RunServes`).
- **Cache.** The key is injective. A key just inserted or read stays in the LRU cache through any run of other inserts
  and reads exactly as long as fewer distinct keys are used than fit (`LruLaw`). An answer is kept for its first
  record's TTL, or five seconds without a record, and served with what is left of that TTL in every record
  (`StoredLife`, `ServedInTime`, `HitLasts`). With requests interleaved at will, every hit has a source: the delegate returned
  these records for this name and type, and the entry was strictly younger than its TTL when checked; lookups find
  only what was put after the last flush. That nothing obtained before a flush is used after it is false in general,
  and `FlushReaches` says when it is true: after a flush every lookup finds answers returned since the flush, in
  every continuation, if and only if no request was then holding an answer it had yet to put; every answer served
  was returned since if and only if no request held, had checked, or had fetched one that had not expired
  (`FlushReachesBoth`: both). `FlushMissesHeldAnswers` and `FlushMissesFetchedAnswers` are runs in which a
  stale answer gets through. In these runs asking the delegate and its return are one step, so an answer worked out
  before a save and returned after its flush counts as returned since. The served TTL is the honest remainder exactly while the age is below the TTL plus one
  second; later the unsigned conversion wraps (`LateServeWraps`).
- **Agreement.** `AlwaysCurrent`: after any sequential run of queries, clock advances, evictions, edits and resets the
  cached local solver answers as the uncached one would on the file of that moment, TTLs aside, including the saves
  that loading itself performs to create the file or fill in ids, and including saves that fail because the file or
  its directory cannot be written. The objects refine these runs: one call of `CachedLocalSolver.Query`, `Edit` or
  `Reset` is one step, up to entries the LRU cache drops. `CachedChainAgrees` lifts the agreement through the chain
  and the alias factory.
- **Agreement under concurrency.** Here a request begins its search, loads the file once per candidate and returns, with
  other requests and edits in between. `SettledExactly`: at any moment of any run, every lookup in every continuation
  without a further edit finds what the file says, if and only if at that moment the cache and the requests on their
  way (searching, holding, or about to put) hold nothing else. `AlwaysSettled`: it stays so in every run whose edits
  fall between requests or leave no such request stale. Otherwise it fails: `RacingEditServesStale` for every edit
  that changes an answer just found, `RemovalRaces` for a concrete one.
- **Lookup and aliases.** Exact name first, else the longest registered suffix, nothing exactly when there is neither.
  The first reply goes out unchanged unless it begins with a marked alias (`PassedOn`); what the system, the containers
  and the local configuration leave open gets exactly the remote reply (`OrdinaryQuestion`).
  The class-256 marker leaves the server exactly when nothing answers the alias's target or the target is a local
  alias again; `MarkerSent` is such a configuration.
- **Configuration.** Runs of edits refine runs on a book, the active name and a map, that evolves by itself: refusal,
  safety and effect of an edit are stated on it alone, and names and ids stay distinct exactly when the edit is safe.
  Lists keep their order (`EditKeepsEnvOrder`, `EditKeepsHostOrder`), and a new active environment answers at once
  (`ActiveAnswers`). An edit whose file
  cannot be written is reported as done and lost (`UnwritableEditLost`). Version 2 round trips
  exactly for quad addresses with non-negative ports; version 1 files round trip always, but for the hostnames' env
  field; saving an internal configuration as version 1 is lossless exactly when it can hold it, so an alias entry with
  a blank address comes back as 0.0.0.0 (`BlankAddressLost`).
- **Containers.** `RegistryLaw`: every run of events leaves the registry exactly right if and only if no hostname is
  shared by two containers and all hostnames fit into the cache. Then a question for a hostname of a running container
  is answered with the four bytes of the address chosen at its latest start (`RunningAnswered`), and nothing else is
  answered (`OnlyRunningAnswered`); one started without any address makes the question panic (`AddresslessCrashes`).
  The address is that of the labelled network, else of `dps`, else of `bridge`; the hostnames are exactly those the
  inspection names (`HostnamesAre`).

Where code and comments differ, the model follows the code: `cache/lru/lru.go:55-58` says a size of -1 means unlimited,
but the underlying cache refuses any size below one, so the model's sizes are at least one.

## Model

| member | source | states |
|---|---|---|
| Resolvconf.ResolvFile.ProcessResolvconf | resolvconf/resolvconf.go:52-94 | the rewrite loop leaves exactly the rewritten content; a file that cannot be opened for reading or for writing is an error and stays as it is, a panic leaves it unwritten |
| ResolvconfLaws.WrapType | resolvconf/resolvconf.go:100-115 | a wrapped server line is a commented server exactly when the keyword stands alone or is followed by a blank, else a plain comment |
| ResolvconfLaws.MarkerNotEarlier | resolvconf/dns-server-cleaner.go:14-16 | the appended marker cannot be found before the place it was appended |
| ResolvconfLaws.WrapUnwrap | resolvconf/set-machine-dns-server.go:19-21 | commenting out and uncommenting a server line is the identity exactly for undoable lines |
| ResolvconfLaws.SetRewrites | resolvconf/set-machine-dns-server.go:12-33 | the set handler never panics; every line by its type, and one entry appended when there was none |
| ResolvconfLaws.SetAbsorbs | resolvconf/resolvconf.go:68-84 | set after set equals the last set on every list of lines |
| ResolvconfLaws.SetShape | resolvconf/set-machine-dns-server.go:12-33 | after a set: no active server, an own entry, all own entries current, at most one line more |
| ResolvconfLaws.CleanerUndoesSet | resolvconf/dns-server-cleaner.go:9-26 | on lines, the cleaner undoes a set exactly on clean lines |
| ResolvconfLaws.CleanerPanics | resolvconf/dns-server-cleaner.go:14-16 | the cleaner panics exactly when a commented server line lacks the marker |
| ResolvconfRuns.RawOfJoin | resolvconf/resolvconf.go:67-80 | writing newline-free lines and scanning them again gives them back |
| ResolvconfRuns.JoinOfRaw | resolvconf/resolvconf.go:67-80 | scanning and writing gives the bytes back exactly when the last line is terminated |
| ResolvconfRuns.SetFileAbsorbs | resolvconf/resolvconf.go:52-94 | on bytes, set after set equals the last set exactly when no kept line ends in a carriage return |
| ResolvconfRuns.CleanerUndoesSetFile | resolvconf/resolvconf.go:21-32 | on bytes, restore after set gives the original file exactly for clean files |
| ResolvconfRuns.TabbedServerIsLost | resolvconf/resolvconf.go:104-109 | a tab-separated server line is not restored |
| ResolvconfRuns.CleanRun | dns.go:145-162 | on a clean file every run of set and restore steps is determined by its last step |
| ResolvconfRuns.RunLaw | dns.go:145-162 | that law holds of every run exactly for clean files |
| ResolvServers.SetServes | resolvconf/resolvconf.go:96-98 | after a set on any lines a resolver reads the given address and no other, exactly when it is one non-empty word |
| ResolvServers.SetFileServes | resolvconf/set-machine-dns-server.go:12-33 | the same on any bytes, read again by the scanner |
| ResolvServers.RunServes | dns.go:145-162 | after any run on a clean file the servers are that of the last set, or after a restore the file's own |
| Candidates.GetAllHosts | proxy/proxy.go:14-28 | the index loop returns the name followed by the dot suffixes |
| Candidates.DotSuffixesExact | proxy/proxy.go:14-28 | the suffixes are exactly those starting at a dot with more behind it, in strictly decreasing length |
| Candidates.NoDuplicates | proxy/proxy.go:14-28 | a candidate is named twice exactly when the name starts with a dot and goes on |
| Candidates.LookupLaw | proxy/docker.go:19-28 | first registered candidate: none exactly when nothing is registered, else exact name, else longest suffix |
| Dns.Msg.Copy | proxy/cache.go:49 | a deep copy that shares neither message nor records |
| CacheSolver.Send | dns.go:51-57 | sending rewrites header and question but keeps the response code and the records |
| Lru.AddedKeeps | cache/lru/lru.go:24-26 | an insert stores the value, drops nothing below capacity and at most one other key at capacity |
| Lru.RecentStays | vendor/github.com/hashicorp/golang-lru/simplelru/lru.go:51-70 | an insert never drops one of the size − 1 most recently used keys |
| Lru.LRUCache.Put | vendor/github.com/hashicorp/golang-lru/simplelru/lru.go:51-70 | insert or refresh as the newest, dropping the oldest when one too many |
| Lru.LRUCache.Get | vendor/github.com/hashicorp/golang-lru/simplelru/lru.go:73-79 | a read returns the value and only moves the key to the front |
| LruRuns.LruLaw | vendor/github.com/hashicorp/golang-lru/simplelru/lru.go:51-79 | a key just used stays through any inserts and reads of other keys exactly as long as fewer distinct ones than the size are used |
| LruRuns.JustUsed | vendor/github.com/hashicorp/golang-lru/simplelru/lru.go:51-79 | what was just inserted, or read and found, is the newest and has its value |
| Ttl.ServedExact | proxy/cache.go:46-54 | the served TTL is the TTL minus the age rounded up, floored at zero, exactly while the age is below the TTL plus one second (or the overrun is a multiple of 2^32 seconds) |
| Ttl.LateServeWraps | proxy/cache.go:51-54 | from one second past its end on, a TTL is served as 2^32 minus the whole seconds it is late |
| Ttl.ServedInTime | proxy/cache.go:46-54 | served within a second of a successful validity check, the TTL never wraps and never exceeds the original |
| Ttl.ServedDecreases | proxy/cache.go:51-54 | later hits on one entry do not get larger TTLs |
| Ttl.SecondsDoNotOverflow | cache/timed/timecache.go:47-49 | converting any 32-bit TTL to nanoseconds does not overflow 64 bits |
| TimedCache.TimedCache.GetTimeValue | cache/timed/timecache.go:28-37 | returns an entry exactly while it is strictly younger than its timeout, removes an expired one, changes nothing else |
| TimedCache.TimedCache.PutTTL | cache/timed/timecache.go:47-49 | stores the value with its creation time and timeout |
| TimedCache.CacheStore.ClearAllCaches | cache/store/store.go:26-31 | afterwards the main cache and every registered cache are empty |
| CacheSolver.KeyInjective | proxy/cache.go:71-73 | keys agree exactly when name and type do |
| CacheSolver.OverwriteTtls | proxy/cache.go:52-54 | the loop writes one TTL into every record and nothing else |
| CacheSolver.StoredLife | proxy/cache.go:64-69 | a stored answer is valid exactly while its age is below its first record's TTL, or below five seconds without a record |
| CacheSolver.ServedInTime | proxy/cache.go:46-60 | served within a second of a successful check, every record is the stored one with the first record's TTL less the age |
| CacheSolver.FirstTtlBounds | proxy/cache.go:50-54 | no record of a hit outlives its own TTL, in every such hit, exactly when the first record's TTL is the smallest (TTL as in section 3.2.1 of RFC 1035) |
| CacheSolver.ServeCopy | proxy/cache.go:46-60 | what is served is a fresh message with the remaining time of the first record in every record |
| CacheSolver.CacheDnsSolver.DoSolve | proxy/cache.go:46-62 | a hit is a fresh copy; no stored message is written to |
| CacheSolver.CacheDnsSolver.StoreReply | proxy/cache.go:28-38 | the delegate's message is stored under the question's key with its first TTL, an error stores nothing |
| CacheSolver.CacheDnsSolver.Solve | proxy/cache.go:21-39 | a hit leaves the cache alone; a miss returns the delegate's reply and stores its message unless it failed |
| CacheSolver.CacheDnsSolver.Respond | dns.go:45-61 | what is sent is a reply to the request with the message's own response code; rewriting the header of a message that may be the stored one leaves the records of every stored message |
| CacheInterleaving.EveryHitHasASource | proxy/cache.go:21-62 | in every interleaving each hit was returned by the delegate for the same name and type, was younger than its TTL when checked, and each lookup finds only what was put since the last flush |
| CacheInterleaving.HitTtl | proxy/cache.go:46-60 | in every interleaving a hit served within a second of its check carries the exact remainder |
| CacheFlush.FlushReaches | cache/store/store.go:26-31 | around a flush at any point of any run: lookups (or answers served) after it come from answers returned after it, in every continuation, exactly when no request is then pending for that use |
| CacheFlush.FlushReachesBoth | cache/store/store.go:26-31 | both at once, exactly when no request holds, is about to put, has checked, or has fetched and not let expire an answer |
| CacheFlush.FlushMissesHeldAnswers | proxy/cache.go:27-33 | an answer obtained before a flush can be stored and served after it |
| CacheFlush.FlushMissesFetchedAnswers | cache/timed/timecache.go:28-37 | so can one that was read from the cache before the flush |
| IpUtils.ToIpByteArray | utils/iputils/iputils.go:17-35 | the loop fills the caller's array as the piecewise specification says, or panics |
| IpUtils.ParsedExactly | utils/iputils/iputils.go:17-35 | any text: up to four numbers between dots before the first colon, each cut to its low byte, the other bytes as they were; anything else but a blank panics |
| IpUtils.IpRoundTrip | utils/iputils/iputils.go:17-47 | printing four bytes and parsing gives them back, whatever the array held |
| GoStrings.AtoiInvertsDecimal | events/local/localvo/dnsserver.go:65-71 | a printed number parses back exactly when a machine int can hold it |
| GoStrings.SplitPieces | events/docker/docker.go:157-169 | splitting gives exactly what stands between separators |
| IpUtils.PrintedIsPlain | utils/iputils/iputils.go:45-47 | four printed bytes are four plain numbers up to 255 between dots |
| IpUtils.PlainIsPrinted | utils/iputils/iputils.go:45-47 | every such text is the printed form of four bytes |
| DnsServer.FoundWhenQuadOccurs | events/local/localvo/dnsserver.go:55-62 | the pattern matches exactly when four digit groups between dots occur somewhere |
| DnsServer.MatchesJoined | events/local/localvo/dnsserver.go:55-62 | the greedy pattern takes digit groups as a whole |
| DnsServer.MatchedIsGroups | events/local/localvo/dnsserver.go:55-62 | what the pattern takes is digit groups between dots |
| DnsServer.ServerText | events/local/localvo/dnsserver.go:55-71 | a server text is read as the leftmost quad in it and the digits behind the colon, 53 when there are none or too many |
| DnsServer.AddressRoundTrip | events/local/localvo/dnsserver.go:19-71 | a printed server reads back exactly when its address is a quad and its port not negative |
| DnsServer.QuadRoundTrip | events/local/localvo/dnsserver.go:55-71 | a missing port becomes 53 |
| DnsServer.ReadPrintRead | events/local/localvo/dnsserver.go:19-71 | whatever was read prints to a text that reads back the same |
| DnsServer.ToIpsByteArray | events/local/localvo/dnsserver.go:23-29 | element-wise conversion of servers to bytes; one bad address panics |
| DnsServer.StringArrayToDnsServer | events/local/localvo/dnsserver.go:47-53 | element-wise parsing of server texts; one without an address panics |
| StorageV1.RoundTrip | events/local/storagev1/storagev1.go:49-139 | every version 1 file loads, and saving gives it back but for the env fields |
| StorageV1.LoadedAsWritten | events/local/storagev1/storagev1.go:99-139 | every entry is loaded under its own environment, every field as written, addresses printed, servers on port 53 |
| StorageV1.SaveLoadExact | events/local/storagev1/storagev1.go:49-139 | saving as version 1 and loading is lossless exactly for version 1 configurations without network flags, with default ports and plain addresses |
| StorageV1.BlankAddressLost | events/local/storagev1/storagev1.go:88-97 | a blank address comes back as 0.0.0.0 |
| StorageV2.RoundTrip | events/local/storagev2/storagev2.go:51-147 | saving and loading is the identity exactly for version 2 with printable servers |
| StorageV2.LoadedAsWritten | events/local/storagev2/storagev2.go:108-147 | every entry is loaded under its own environment, every field as written, flags included |
| StorageV2.LoadSaveLoad | events/local/storagev2/storagev2.go:108-125 | what was loaded is saved and loaded unchanged |
| StorageV2.LoadsWhen | events/local/storagev2/storagev2.go:108-125 | a file loads exactly when each server text holds a quad |
| LocalVo.GetHostname | events/local/localvo/localvo.go:89-99 | the first entry with the name |
| LocalVo.GetHostnameById | events/local/localvo/localvo.go:219-227 | the first entry with the id |
| LocalVo.Configuration.GetEnv | events/local/localvo/localvo.go:60-68 | the first environment with the name |
| LocalVo.Configuration.SetActiveEnv | events/local/localvo/localvo.go:253-262 | changes only the active environment, and only to an existing one |
| LocalVo.Configuration.AddEnvironment | events/local/localvo/localvo.go:133-142 | appends an environment with a new name, else changes nothing |
| LocalVo.Configuration.RemoveEnvByName | events/local/localvo/localvo.go:144-159 | takes the environment out in place, the others in order |
| LocalVo.Configuration.AddHostname | events/local/localvo/localvo.go:170-188 | appends an entry with a type and a new name, filling in a missing id |
| LocalVo.Configuration.UpdateHostname | events/local/localvo/localvo.go:190-217 | overwrites the first entry with the id |
| LocalVo.Configuration.RemoveHostnameByEnvAndHostname | events/local/localvo/localvo.go:229-251 | takes the entry out in place, the others in order |
| LocalVoRefinement.EditRefused | events/local/localvo/localvo.go:133-262 | an edit is refused exactly when the table says so |
| LocalVoRefinement.EditKeepsNames | events/local/localvo/localvo.go:133-251 | whatever the ids, an accepted edit keeps names distinct exactly when no name is taken twice, and then changes the targeted entry of the table only, an update the first entry with the id |
| LocalVoRefinement.EditKeepsRest | events/local/localvo/localvo.go:133-262 | no edit touches version, servers, settings or network flags, and only a change of the active environment its name |
| LocalVoRefinement.EditRefines | events/local/localvo/localvo.go:133-262 | with distinct names and ids, an accepted edit keeps both distinct exactly when it is safe for the table, and then is the edit of the book: active name and table |
| LocalVoRefinement.EditKeepsEnvOrder | events/local/localvo/localvo.go:133-159 | environments keep their order, a new one comes last |
| LocalVoRefinement.EditKeepsHostOrder | events/local/localvo/localvo.go:170-251 | hostnames keep their order in the edited environment, a new one comes last; the others' lists stay as they are |
| LocalVoRefinement.RunRefines | events/local/localvo/localvo.go:60-262 | every run of edits, safe for the book it meets, keeps names and ids distinct and equals the run on the book alone |
| LocalSolver.SolveLaw | proxy/local.go:18-28 | a question fails exactly when nothing is registered for it; else it is answered from the exact name or the longest suffix |
| LocalSolver.AnswerShape | proxy/local.go:38-57 | an answer is one record with the question's name, class 256 exactly for aliases |
| LocalSolver.AnswerContents | proxy/local.go:59-80 | address, target and TTL come from the entry; other types are not answered |
| LocalSolver.ActiveAnswers | events/local/localvo/localvo.go:253-262 | after an accepted change of the active environment, answers come from the first environment of that name |
| LocalEvents.LoadKeepsAnswers | events/local/local.go:27-71 | loading may write the file but changes no answer, whether the write succeeds or not, and fails only when the file does |
| LocalEvents.LoadFillsIds | events/local/local.go:56-71 | a load fills in the missing ids and nothing else, and saves exactly when one was missing and the file can be written |
| LocalEvents.DefaultLoaded | events/local/local.go:42-53 | without a file: version 2, no servers, both flags off, the one nameless environment when the directory is ready, saved when it can be written |
| LocalEvents.SolveLocalAnswers | proxy/local.go:18-28 | loading the file for every candidate gives the answer of the file as it was; a changed file was saved |
| LocalEvents.V1Answers | events/local/storagev1/storagev1.go:99-139 | a version 1 file always loads; its active entry for a name is answered with the address, target and TTL the file holds |
| LocalEvents.V2Answers | events/local/storagev2/storagev2.go:108-147 | the same for a version 2 file that loads, where the address is text |
| LocalEvents.EditPersists | events/local/local.go:162-238 | a written edit is what the file then loads as, always in version 2, in version 1 exactly when it can hold it |
| LocalEvents.UnwritableEditLost | events/local/local.go:140-160 | an edit whose file cannot be opened for writing has the same outcome, and every question is answered as before |
| LocalStore.LocalStore.SaveConfiguration | events/local/local.go:104-160 | fills in an environment, writes the file, flushes; a panic while converting, or a file that cannot be opened, leaves file and caches |
| LocalStore.LocalStore.SetHostnameIds | events/local/local.go:56-71 | fills in missing ids in place and saves exactly when one was missing and the file can be written |
| LocalStore.LocalStore.LoadConfiguration | events/local/local.go:27-54 | a fresh object with the loaded configuration; creates a missing file if directory and file can be written |
| LocalStore.LocalStore.EditConfiguration | events/local/local.go:162-238 | load, edit, save, flush; a refused edit leaves what loading left, an unwritable file goes unreported |
| LocalStore.LocalStore.ResetConf | events/local/local.go:135-138 | flushes every cache, whether or not the file could be removed |
| CoherentRuns.AskAgrees | proxy/cache.go:21-62 | a cached answer agrees with the current configuration and leaves the cache in agreement |
| CoherentRuns.AlwaysCurrent | events/local/local.go:140-160 | after every sequential run any question is answered as the uncached solver would, TTLs aside |
| CoherentRuns.HitIsCurrent | proxy/cache.go:46-60 | a hit is the current answer with the remainder of the first TTL |
| CoherentRuns.HitLasts | proxy/cache.go:21-69 | after any run a cached answer is served exactly while younger than its first TTL, with that TTL less its age in every record; any other answer is the local one, TTLs included |
| ConcurrentRuns.Projects | proxy/cache.go:21-39 | every concurrent run of the local solver is, for the cache, one of the interleavings, so what holds of all of these holds of it |
| ConcurrentLaws.SettledExactly | proxy/local.go:59-80 | at any moment of any run: every later lookup before the next edit is current, in every continuation, exactly when cache and requests hold current answers only |
| ConcurrentLaws.AlwaysSettled | events/local/local.go:140-160 | a run whose edits fall between requests, or leave none stale, keeps it so |
| ConcurrentLaws.RacingEditServesStale | events/local/local.go:140-160 | an edit that changes an answer a request has just found: the flush comes first, the stale answer is put and found after it |
| ConcurrentLaws.RemovalRaces | events/local/local.go:140-160 | removing the only entry is such an edit |
| CachedLocalSolver.SolveFromFile | proxy/local.go:18-80 | the search over candidates, loading the file each time, computes the specified answer and file |
| CachedLocalSolver.CachedLocalSolver.Query | proxy/cache.go:21-39 | on objects, lookup, delegate and put together give the answer and the file of one query of a run, and a cache within that query's |
| CachedLocalSolver.CachedLocalSolver.Solve | proxy/cache.go:21-39 | on objects: every answer agrees with the file, and cache and file still agree afterwards |
| CachedLocalSolver.CachedLocalSolver.Edit | events/local/local.go:162-238 | on objects, an edit is the edit step of a run: file and cache are those of the step |
| CachedLocalSolver.CachedLocalSolver.Reset | events/local/local.go:135-138 | on objects, a reset is the reset step of a run |
| DockerSolver.SolveLaw | proxy/docker.go:19-28 | the lookup law for the container registry |
| DockerSolver.SolveFromCache | proxy/docker.go:19-41 | the search on the cache object gives the specified answer and moves the key it answers from to the front |
| DockerSolver.PrintedAddress | proxy/docker.go:43-59 | a registered address is answered with its four bytes and TTL zero |
| DockerSolver.RegisteredText | proxy/docker.go:43-59 | any registered text: fewer than four pieces panic; else the low byte of each number, 255 for one too large, 0 for what is none |
| Factory.ChainSource | proxy/factory.go:16-29 | the reply is that of the first solver with a message |
| Factory.PassedOn | proxy/factory.go:16-29 | the first solver's reply goes out unchanged when it failed, is empty or does not begin with a marked alias; without any reply the question fails |
| Factory.AliasOnSolvers | proxy/factory.go:46-73 | a marked alias becomes a visible CNAME and exactly what the first solver with a message says of its target; a failed one fails the question |
| Factory.MarkerEscapes | proxy/factory.go:46-73 | the marker leaves exactly when the target is unanswered or answered with another marked alias |
| Factory.CnameIgnoresTtl | proxy/factory.go:46-73 | solvers that agree up to TTLs give responses that agree up to TTLs |
| ProxyChain.AliasLaw | dns.go:72-81 | the alias law for the chain of the server |
| ProxyChain.OrdinaryQuestion | dns.go:72-81 | answered by a container, else by a local address entry, else exactly as the remote solver replies |
| ProxyChain.SystemQuestion | dns.go:72-81 | what the system answers goes out unchanged |
| ProxyChain.MarkerSent | proxy/factory.go:46-73 | with one alias whose target nothing answers, the class-256 record is sent |
| ProxyChain.CachedChainAgrees | dns.go:72-81 | the chain with the cached local solver responds as the one without, aliases re-resolved in any agreeing later state |
| ProxyChain.SecondLookupState | dns.go:72-81 | the state at the second lookup is an agreeing one, whether or not the local solver was reached before |
| DockerNetwork.SortByDriver | docker/dockernetwork/dockernetwork.go:313-326 | sorted by driver, the same networks |
| DockerNetwork.MapValues | docker/dockernetwork/dockernetwork.go:283-289 | the values of the map, in whatever order |
| DockerNetwork.ConstructCompleteNetwork | docker/dockernetwork/dockernetwork.go:291-305 | every network with its driver; an unknown one panics |
| DockerNetwork.FindBestIpForNetworks | docker/dockernetwork/dockernetwork.go:237-253 | first preferred network with an address, else a bridge's, else any, else the container's own |
| DockerEvents.EnvHostnames | events/docker/docker.go:157-169 | names joined by commas in the variable come out as they went in |
| DockerEvents.HostnamesAre | events/docker/docker.go:141-194 | the names registered are exactly the host name with its domain, the pieces of the first `HOSTNAMES=` variable and, where enabled, the container's and service's names with the domain |
| DockerEvents.PreferredChoice | events/docker/docker.go:196-198 | the address on the labelled network, else on `dps`, else on `bridge` |
| DockerEvents.ContainerRegistry.PutHostnames | events/docker/docker.go:196-203 | every hostname is registered with an address that may be chosen |
| DockerEvents.ContainerRegistry.HandleEvent | events/docker/docker.go:98-109 | start registers, stop and die remove, other actions change nothing; a failing inspection or network connect, an empty name to be registered, or an unknown network, panics and changes nothing |
| RegistryRuns.RunCorrect | events/docker/docker.go:69-110 | with disjoint hostnames that fit, every run leaves the registry exactly right |
| RegistryRuns.EventRegisters | events/docker/docker.go:98-109 | with room for all, a start maps exactly the container's names to its address, an end removes exactly these |
| RegistryRuns.RunningIsLatest | events/docker/docker.go:98-109 | a container runs with an address exactly when its last event is a start with it |
| RegistryRuns.RunningAnswered | proxy/docker.go:19-59 | after every such run a question for a running container's hostname is answered with the bytes of its latest address |
| RegistryRuns.OnlyRunningAnswered | proxy/docker.go:19-28 | after every such run a question is answered exactly when its name or a dot suffix belongs to a running container |
| RegistryRuns.AddresslessCrashes | proxy/docker.go:43-59 | a question for a container started without any address panics |
| RegistryRuns.Handle | events/docker/docker.go:86-109 | on objects, a handled event of a container is the step of the run, a panic is none |
| RegistryRuns.Answer | proxy/docker.go:19-41 | on objects, an answered question is the lookup step of the run |
| RegistryRuns.SharedNameLost | events/docker/docker.go:104-108 | a shared hostname disappears with the first of its containers to end |
| RegistryRuns.RegistryLaw | events/docker/docker.go:69-110 | every run leaves the registry right if and only if hostnames are disjoint and fit |

## Left out

- The scanner's maximum line length, file modes, and writes that fail half way: a file is read, written or refused as a whole.
- `RestoreResolvconfToDefault` and the 20-second loop appear as steps of a run; address discovery, `chattr` locking and the search-domain entry do not.
- Sockets, DNS wire format, the message sections besides the answer, truncation, compression and TSIG.
- The remote solver's exchange: `CacheDnsSolver.Solve` takes the delegate's reply as a parameter and requires a message when there is no error; `ProxyChain` takes the remote solver as any solver.
- The server list the remote solver keeps in the main cache, and the other values kept there.
- Memory-level races on one message: a message's list of records is fixed when it is built, and requests interleave at whole cache calls and clock reads; in `CoherentRuns` and `ConcurrentRuns` a save and its flush are one step.
- `time.Sub` saturating after 292 years; the clock never goes back.
- `Get`, `Put` with the default TTL, `PutIfAbsent`, `KeySet` and `Size` of the timed cache; the model's cache keys are strings.
- JSON: the file holds the version structs themselves, so absent fields, null lists and malformed files do not occur; an unknown version is an error.
- Ids are handed in as an arbitrary function of the position; `EditRefines` and `RunRefines` ask for distinct ones, nothing else does.
- LocalStore.LocalStore.LoadConfiguration: does not model a file that exists but cannot be read, because such errors come and go between the loads of one question.
- The six edit wrappers of `events/local/local.go` have one shape and are one method; an environment is a value in the configuration's list, so writing through a reference into the list is a list update.
- The address pattern is a greedy parser for that one pattern; there is no general regular expression engine and no regex hostname search.
- The Docker client, network connect and disconnect, and the settings lookup: inspections, drivers and settings are parameters.
- A container's hostnames are a fixed list in `RegistryRuns`; a failing address choice ends the process and is not an event there.
- IpUtils.ToIpByteArray: does not say what the array holds after a panic, because no caller can see it.
- Log messages and error texts.
