# Container image exporter: a verified model

The exporter has two halves. The cluster exporter resolves every image named by
a Kubernetes workload to a digest and its metadata, keeps the answers in a
cache shared by all reconcilers, and reports them to Prometheus; each scrape
also garbage-collects the cache. The node exporter reports the images and the
os-release data of the containers on one node. This project models the parts
whose correctness is not visible from reading one function, and proves what
they keep.

- `ImageCache`, `CacheLaws`, `CacheLog`: the two-level cache as a class over two
  maps, whose eviction loops visit keys in an unspecified order; the algebra of
  its operations; and its refinement of the plain history of operations.
- `Protocol`, `ProtocolInvariants`, `ProtocolSafety`, `FetchDiscipline`,
  `ProtocolLimits`: any number of `getImage` calls, the fetches they share, and
  any number of overlapping scrapes, as a state machine over atomic steps. No
  lock spans two steps. The theorems are about every run from an empty cache.
- `Json`, `JsonPath`, `Extraction`, `ExtractionLaws`, `Resources`: which
  containers a path selects in an object, the loops that find them, and the
  JSONPath text printed for each, with a parser and an evaluator for it.
- `Metrics`, `Collect`: one scrape of the cluster exporter. The cache's answers
  to its reads are arbitrary, since other goroutines run in between.
- `Transport`: the layered registry transport, as classes for its per-host
  tables and a state machine for the requests going through it.
- `LabelValue`, `OsRelease`, `NodeImages`: capping label values, parsing
  os-release files, and de-duplicating and reporting node images.
- `Reconciling`: one `getImage`, the jitter and one reconcile on their own.

Times are integers counted from the zero time, so that 0 is the zero value.

## Where the code and its documentation disagree

The model follows the code.

- An expired hit. The comments at internal/clusterexporter/reconciler.go:114-116
  and 124-127 say that a requeue refreshes an expired entry. The guard at lines
  147-152 returns an error for it. `ProtocolSafety.ExpiredHit` states exactly
  when, under the guard as written and under a corrected one, and
  `ProtocolLimits.ExpiredEntryNotRefreshed` is a run that gets there.
  `FetchDiscipline` gives the consequence over whole runs: while a reference
  stays live, calls made after its put never fetch it (`LaterCallsNeverFetch`),
  and it is stored again only through a miss from before that put
  (`LaterPutsComeFromEarlierMisses`, `StoredAgainIff`).
- A recent entry. The comment at internal/clusterexporter/cache.go:25-28 says
  that entries cached at or after olderThan are protected. `CacheLaws.RecentImageKept`
  proves that this holds exactly for images some key still points to, and
  `CacheLaws.MovedTagDropsRecentDigest` gives the case that fails.
- An active digest reference. Being in the active list keeps a digest reference
  alive exactly when an active key points to its digest (`CacheLaws.DigestKeptAlive`);
  `CacheLaws.ActiveDigestCanBeDropped` gives the case that fails.
- A complete active list. The comment at internal/clusterexporter/metrics.go:218-219
  calls the list of active references complete once all lists succeeded. The
  kinds are listed one after another, so a reference that moves from one kind to
  another meanwhile is found in neither list.
  `ProtocolLimits.HandoverLosesImage` is a run in which some workload names a
  reference in every state and its image is evicted all the same.
  `ProtocolSafety.SurvivesScrapeIff` is the exact condition for one scrape: the
  image is recent, or some list was taken while its own kind named the reference.
  `ProtocolSafety.LiveImageRetained` therefore asks that one kind names it throughout.
- A path that ends in its wildcard prints a JSONPath that does not lead back
  (`ExtractionLaws.RoundTripIff`). None of the shipped tables has one
  (`Resources.ShippedTablesAreSafe`).
- A cache duration of 1 to 5 nanoseconds makes the jitter panic
  (`Reconciling.AddJitter`).
- De-duplication of node images is by requested identifier, so two identifiers
  of one image are both gathered (`NodeImages.AliasesGatherTwice`).
  `NodeImages.CollectInUse` states exactly when a series then repeats.

## Model

| member | source | states |
|---|---|---|
| References.StringInjective | internal/clusterexporter/cache.go:56 | two references with the same text, hence the same cache key, are the same reference |
| ImageCache.ContainerImageCache.constructor | internal/clusterexporter/cache.go:39-45 | a new cache is empty |
| ImageCache.ContainerImageCache.Get | internal/clusterexporter/cache.go:48-71 | a digest reference is answered from its own digest, a tag through its cached digest; the empty digest and a missing image are misses |
| ImageCache.ContainerImageCache.Put | internal/clusterexporter/cache.go:74-89 | a nil image changes nothing; any other is stored under its key and its digest with the current time |
| ImageCache.ContainerImageCache.Evict | internal/clusterexporter/cache.go:94-127 | for every order of the two deletion loops, a key survives iff it is active or its digest's time is not before olderThan, and a digest survives iff a surviving key points to it |
| CacheLaws.StoredStaysCoherent | internal/clusterexporter/cache.go:82-86 | storing keeps every key's target cached and every image under its own digest, and the stored reference then hits |
| CacheLaws.EvictedStaysCoherent | internal/clusterexporter/cache.go:103-124 | eviction keeps coherence and leaves no orphaned digest |
| CacheLaws.EvictTwice | internal/clusterexporter/cache.go:94-127 | two evictions in a row keep exactly the keys that both would keep, and the digests those point to |
| CacheLaws.EvictsCommute | internal/clusterexporter/cache.go:94-127 | evictions with different active sets and epochs commute, on every cache |
| CacheLaws.EvictIdempotent | internal/clusterexporter/cache.go:94-127 | evicting twice is evicting once |
| CacheLaws.EvictKeepsTag | internal/clusterexporter/cache.go:105-117 | a tag that hits answers the same after eviction iff its key is active or its image is recent |
| CacheLaws.DigestKeptAlive | internal/clusterexporter/cache.go:53-54 | a digest reference that hits survives every epoch iff some active key points to its digest |
| CacheLaws.ActiveDigestCanBeDropped | internal/clusterexporter/cache.go:103-124 | a digest reference served only thanks to a tag is dropped although it is active |
| CacheLaws.RecentImageKept | internal/clusterexporter/cache.go:119-124 | an image cached at or after olderThan survives iff some key points to it |
| CacheLaws.MovedTagDropsRecentDigest | internal/clusterexporter/cache.go:119-124 | a digest orphaned by a moved tag is dropped however recent it is |
| CacheLaws.EvictLeavesOnlyActive | internal/clusterexporter/cache.go:94-127 | with nothing cached at or after the epoch, exactly the active cached keys remain, and images do not outnumber keys nor keys active references |
| CacheLog.BindingExtended | internal/clusterexporter/cache.go:82-117 | how one more operation changes the digest a key stands for, read off the history |
| CacheLog.ReplayAgrees | internal/clusterexporter/cache.go:74-127 | after any history, keys and images of the cache are those the history calls for |
| CacheLog.LookupRefinesLog | internal/clusterexporter/cache.go:48-127 | after any history, a tag answers the latest image of the digest of its last Put if every later eviction spared it, and a digest answers its latest image if it is held |
| ProtocolInvariants.CacheInvPreserved | internal/clusterexporter/cache.go:82-86 | every step keeps the cache coherent and never moves a cached digest's time back |
| ProtocolInvariants.AfterReadKeepsInv | internal/clusterexporter/metrics.go:163-172 | reading one container keeps the oldest entry the least first-seen time |
| ProtocolInvariants.FlightsPreserved | internal/clusterexporter/reconciler.go:158-166 | the group names exactly the running fetches, each under its own reference |
| ProtocolInvariants.CallsPreserved | internal/clusterexporter/reconciler.go:137-168 | every step keeps each call's phase justified by the cache guard or by its fetch |
| ProtocolInvariants.Reachable | internal/clusterexporter/reconciler.go:137-221 | the invariants hold in every state of every run |
| ProtocolSafety.PutGuards | internal/clusterexporter/cache.go:82-86 | a reference just put is out of reach of every scrape in progress |
| ProtocolSafety.GuardedPreserved | internal/clusterexporter/metrics.go:103-113 | while a kind names a guarded reference, every step keeps it guarded: a scrape began before the put, has yet to list the kind, or found it |
| ProtocolSafety.LiveImageRetained | internal/clusterexporter/metrics.go:86-225 | in every run with any overlap of scrapes, a reference put and named by one kind ever since still hits |
| ProtocolSafety.SurvivesScrapeIff | internal/clusterexporter/metrics.go:86-225 | a cached reference survives a scrape, and a tag goes on to hit, iff its image was cached no earlier than the scrape began or some list was taken while the kind it listed named the reference |
| ProtocolSafety.UnreferencedCollected | internal/clusterexporter/metrics.go:218-222 | in particular, a reference no workload names from a scrape's start to its eviction survives iff its digest was cached since the epoch |
| ProtocolSafety.ScrapeLeavesOnlyFound | internal/clusterexporter/metrics.go:86-225 | no leak: with nothing stored at or after a scrape's epoch, exactly the cached references its lists found remain, and images do not outnumber keys nor keys the references found |
| ProtocolSafety.AtMostOneFetch | internal/clusterexporter/reconciler.go:155-166 | at most one fetch per reference is running at any moment |
| ProtocolSafety.FollowersAgree | internal/clusterexporter/reconciler.go:158-166 | calls that shared a fetch return the same outcome |
| ProtocolSafety.FetchOnlyAfterMiss | internal/clusterexporter/reconciler.go:145-161 | as written, a call goes on to fetch only if its own lookup missed |
| ProtocolSafety.ReturnedImageIsFresh | internal/clusterexporter/reconciler.go:145-167 | every image a call returns is an entry its own lookup saw and its check found fresh, or the result of a fetch running while it waited; every error is such a fetch's, or that of an entry its check found expired |
| ProtocolSafety.CallProceeds | internal/clusterexporter/reconciler.go:145-167 | a call that has not returned can always be moved on, by its own step or one of the fetch it waits on |
| ProtocolSafety.ScrapeProceeds | internal/clusterexporter/metrics.go:103-225 | a scrape under way can always take its next step: its next list, its next read, or its eviction once all are read |
| ProtocolSafety.AbortedNeverEvicts | internal/clusterexporter/metrics.go:103-111 | a scrape that gave up at a failed list evicts nothing |
| ProtocolSafety.ExpiredHit | internal/clusterexporter/reconciler.go:147-152 | a hit is answered from the cache iff it is fresh when checked; as written it ends in the expiry error iff it has expired, and under the corrected guard an expired hit returns only what a fetch delivers |
| FetchDiscipline.JoinerMissedBeforePut | internal/clusterexporter/reconciler.go:145-161 | as written, a call that goes on to fetch a reference named ever since its put saw its miss before that put |
| FetchDiscipline.LaterPutsComeFromEarlierMisses | internal/clusterexporter/reconciler.go:145-167 | as written, such a reference is put again only by a fetch started after the put, for a call that missed before it |
| FetchDiscipline.StoredAgainIff | internal/clusterexporter/reconciler.go:145-167 | as written, some continuation of the run stores such a reference again while it is named iff a miss has still to join a fetch or a fetch has still to store |
| FetchDiscipline.LiveReferenceNeverResolvedAgain | internal/clusterexporter/reconciler.go:145-153 | once nothing is pending for such a reference, no continuation stores it again and its digest stays what it was |
| FetchDiscipline.LaterCallsNeverFetch | internal/clusterexporter/reconciler.go:145-167 | every call made after the put of a reference named ever since returns the cached entry or the expiry error, never a fetch |
| FetchDiscipline.FreshAtRequeueWasStoredSince | internal/clusterexporter/reconciler.go:116-135 | an entry still fresh when a requeue fires was stored after the reconcile returned |
| FetchDiscipline.EntrySincePut | internal/clusterexporter/cache.go:48-127 | a reference named ever since its put answers exactly the entry of that put while neither it nor its digest is stored again |
| FetchDiscipline.RequeuedCallFails | internal/clusterexporter/reconciler.go:114-152 | a call made after that put is answered with its entry before one cache duration has passed and fails from then on |
| ProtocolSafety.OldestEntryIsLowerBound | internal/clusterexporter/metrics.go:163-172 | with puts interleaved, the oldest entry is the least time remembered and a lower bound of the current time of each digest still cached |
| ProtocolSafety.EveryReferenceReadOnce | internal/clusterexporter/metrics.go:131-134 | by its eviction a scrape has looked up every reference it found exactly once |
| ProtocolSafety.FirstSeenIs | internal/clusterexporter/metrics.go:134-172 | a scrape remembers exactly the digests its lookups hit, each with the time seen by the first of those lookups |
| ProtocolSafety.OldestIsLeastFirstHit | internal/clusterexporter/metrics.go:163-172 | the oldest entry in terms of the lookups alone: zero iff none hit, otherwise the least time at which a digest was first hit |
| ProtocolLimits.HandoverLosesImage | internal/clusterexporter/metrics.go:103-113 | a run in which some workload names a reference in every state and a scrape evicts its image, because the naming kind changed between two lists |
| ProtocolLimits.ExpiredEntryNotRefreshed | internal/clusterexporter/reconciler.go:114-152 | a run that fetches and puts a reference named in every state, in which a call one cache duration later fails as expired; under the corrected guard it goes on to fetch |
| JsonPath.DecimalRoundTrip | internal/clusterexporter/reconciler.go:350 | a printed index parses back to itself |
| JsonPath.DecimalDigits | internal/clusterexporter/reconciler.go:350 | an index prints in decimal digits without leading zeros |
| JsonPath.PrintRoundTrip | internal/clusterexporter/reconciler.go:349-353 | a printed path of safe names parses back to its segments |
| JsonPath.PrintInjective | internal/clusterexporter/reconciler.go:349-353 | different paths of safe names print differently |
| JsonPath.EvaluateIff | internal/clusterexporter/reconciler.go:349-403 | evaluating a path finds a value iff a walk along its fields and list elements ends there |
| Json.FieldIff | internal/clusterexporter/reconciler.go:336-366 | a nested lookup finds a value iff each name is a field of the object before it and the last one holds it |
| Extraction.FindWildcard | internal/clusterexporter/reconciler.go:326-333 | the first "*" of a path, or -1 |
| Extraction.SpecMatchesIff | internal/clusterexporter/reconciler.go:325-408 | a position is selected with a spec iff the path reaches there an object whose own "image" is a string, the spec's, and whose own "name" is the spec's if it is a string, and "" otherwise |
| Extraction.ExtractedIff | internal/clusterexporter/reconciler.go:307-408 | a spec is extracted iff some path of the table reaches an object with that string image and that name |
| Extraction.SpecsInList | internal/clusterexporter/reconciler.go:335-356 | without a wildcard, exactly the selected positions of the list, in order |
| Extraction.SpecsInInnerList | internal/clusterexporter/reconciler.go:387-405 | exactly the selected elements of an inner list |
| Extraction.SpecsInSingleton | internal/clusterexporter/reconciler.go:375-386 | an object at the end of the suffix is the one container of its item, if it has a string image |
| Extraction.SpecsThroughWildcard | internal/clusterexporter/reconciler.go:358-407 | with a wildcard, exactly the selected positions over all items, in order; a later "*" is an ordinary name |
| Extraction.SpecsForPath | internal/clusterexporter/reconciler.go:325-408 | exactly the positions at which evaluating the path reaches an object with a string image, each once and in order, with its optional name |
| Extraction.ContainerSpecs | internal/clusterexporter/reconciler.go:307-313 | exactly the selected positions of a table of paths, in table order; exactly the specs read off the object's own fields |
| Extraction.ExtractionUnique | internal/clusterexporter/reconciler.go:307-313 | an object and a table of paths determine the containers, their texts and their order |
| ExtractionLaws.PathTextPrints | internal/clusterexporter/reconciler.go:349-403 | the three format strings print the segments of the path with its indices |
| ExtractionLaws.PlainForm | internal/clusterexporter/reconciler.go:349-353 | the text of a path of two names without wildcard |
| ExtractionLaws.WildcardForm | internal/clusterexporter/reconciler.go:382-403 | the text of a path of two names, a wildcard and a name, with and without an inner index |
| ExtractionLaws.RoundTripIff | internal/clusterexporter/reconciler.go:349-403 | for a path of safe names, every container of every object is found again by its JSONPath iff the path does not end in its wildcard |
| ExtractionLaws.FinalWildcardLost | internal/clusterexporter/reconciler.go:382-386 | an object and container for which a path ending in its wildcard does not lead back |
| ExtractionLaws.PathTextInjective | internal/clusterexporter/reconciler.go:349-403 | the printed text determines the path and the position, indices included |
| ExtractionLaws.JsonPathsDistinct | internal/clusterexporter/reconciler.go:307-313 | no two containers extracted from one object share a JSONPath |
| ExtractionLaws.ExtractedLeadBack | internal/clusterexporter/reconciler.go:307-313 | every extracted container is found again by its JSONPath, with its image and name |
| Resources.ShippedTablesAreSafe | internal/clusterexporter/setup.go:55-270 | every shipped table has safe, distinct paths, none ending in its wildcard |
| Metrics.Allowed | internal/clusterexporter/metrics.go:229-239 | a key is allowed iff the allowlist is empty or contains it |
| Metrics.EmitEntries | internal/clusterexporter/metrics.go:181-206 | for every map order, one sample per allowed entry, no series twice |
| Metrics.ImageSampleIff | internal/clusterexporter/metrics.go:174-206 | the samples of an image, descriptor by descriptor: labels and values in terms of its fields |
| Metrics.CalledForIff | internal/clusterexporter/metrics.go:143-206 | the samples of a scrape's containers, descriptor by descriptor: one info per container with its eight labels, and those of each image at its first hit |
| Metrics.ActiveRefsAt | internal/clusterexporter/metrics.go:131-134 | each container whose image parses takes one place among the active references, in order |
| Metrics.EmitImage | internal/clusterexporter/metrics.go:174-206 | exactly the size, creation, annotation and label samples of an image, no series twice |
| Metrics.InfoIsNew | internal/clusterexporter/metrics.go:143-155 | a container's info repeats no series of other containers |
| Metrics.ImageIsNew | internal/clusterexporter/metrics.go:163-206 | a digest hit for the first time repeats no series already sent |
| Metrics.Observe | internal/clusterexporter/metrics.go:124-207 | one container adds exactly the samples it calls for, its reference, its digest and its time |
| Metrics.OldestExtended | internal/clusterexporter/metrics.go:169-172 | the oldest entry stays the least first-seen time as containers are read |
| Collect.ListAll | internal/clusterexporter/metrics.go:97-113 | nothing if any list failed; otherwise every item of every list with the paths of its kind, and nothing else, list by list and in list order |
| Collect.AllWorkInOrder | internal/clusterexporter/metrics.go:97-124 | the work of a scrape runs through the slots of all lists in reading order |
| Collect.FlatDistinct | internal/clusterexporter/metrics.go:122-124 | containers of distinct items, or of one item through a safe table, are distinct |
| Collect.Collect | internal/clusterexporter/metrics.go:86-225 | a failed list sends up = 0 and evicts nothing; otherwise exactly the containers of the listed items are read, each in its turn, the eviction gets exactly the references their images parse to, the samples are exactly those called for, and no series repeats when items and paths are distinct |
| Collect.TraceIff | internal/clusterexporter/metrics.go:122-124 | a container is recorded iff some list holds its item and a path of that kind reaches it |
| Collect.EmittedIff | internal/clusterexporter/metrics.go:92-224 | what a complete scrape sends, descriptor by descriptor |
| Collect.ReadsInTurn | internal/clusterexporter/metrics.go:131-137 | the n-th active reference was looked up once, by a container it is the reference of, with the n-th answer; a container whose image does not parse looks up nothing |
| Collect.OldestZeroIffNoHit | internal/clusterexporter/metrics.go:169-172 | the oldest entry is zero iff no read hit |
| Collect.OldestAgreesWithProtocol | internal/clusterexporter/metrics.go:169-172 | a scrape and a collector of the state machine that see the same hits report the same oldest entry |
| Collect.ListedContainerIsActive | internal/clusterexporter/metrics.go:131-133 | a reference is active at the eviction iff the image of some container of some listed item parses to it |
| Transport.ConcurrencyTransport.SemFor | internal/clusterexporter/transport.go:96-103 | a host's semaphore is created once with all permits free and is the same object ever after |
| Transport.ConcurrencyTransport.RoundTrip | internal/clusterexporter/transport.go:87-94 | every path out gives the permit back, and a cancelled wait takes none |
| Transport.RateLimitTransport.LimiterFor | internal/clusterexporter/transport.go:62-69 | a host's limiter is created once with the configured rate and burst |
| Transport.NewRegistryTransport | internal/clusterexporter/transport.go:16-35 | the layers are those configured; every request of every run passes them from the outermost to the base transport, and no layer inside the metrics makes it wait |
| Transport.HistoryFollows | internal/clusterexporter/transport.go:55-94 | a request's phases are a prefix of the layers' waits and the base, then the answer and the release, or a cancelled wait |
| Transport.PermitConserved | internal/clusterexporter/transport.go:87-94 | every step keeps free plus held permits of a host at the maximum |
| Transport.PerHostBound | internal/clusterexporter/transport.go:71-103 | in every run, free plus held permits equal the maximum, so the base transport never serves more requests of one host at once |
| Transport.IdleHostHasAllPermits | internal/clusterexporter/transport.go:55-94 | requests waiting, cancelled or completed hold no permit |
| Transport.AdmissionDependsOnHostOnly | internal/clusterexporter/transport.go:87-94 | a waiting request can be admitted iff its own host is below the maximum |
| Transport.HostsIsolated | internal/clusterexporter/transport.go:71-103 | a step for another host changes nothing of this host's permits, holders or waiters |
| Transport.RequestProceeds | internal/clusterexporter/transport.go:55-94 | every wait can be cancelled, and a request not done can move on unless its host is at the maximum |
| Transport.CountersCountResponses | internal/clusterexporter/transport.go:129-141 | each request counter is the number of answers of the base transport in the run with its host, method and code |
| Transport.LimitersAre | internal/clusterexporter/transport.go:62-69 | with a rate, limiters exist exactly for the hosts of the requests made |
| Transport.CountersExact | internal/clusterexporter/transport.go:129-141 | the request counter is the number of requests the base transport answered so |
| LabelValue.TruncateLabelValue | internal/nodeexporter/exporter.go:268-278 | a value of at most 1024 bytes is returned as it is; a longer one is cut at the last of its first 1021 bytes at which a character can start, and marked |
| LabelValue.TruncatedIs | internal/nodeexporter/exporter.go:268-278 | for any bytes, the same of the specification; the result differs from the value iff that is longer than 1024 bytes |
| LabelValue.CharLengthIff | internal/nodeexporter/exporter.go:263-267 | well-formed characters are exactly the shortest encodings of Unicode scalar values |
| LabelValue.TruncatedFits | internal/nodeexporter/exporter.go:268-278 | any result fits in 1024 bytes and truncating again changes nothing |
| LabelValue.PrefixValidIff | internal/nodeexporter/exporter.go:263-267 | a prefix of well-formed UTF-8 is well-formed iff it ends where a character starts |
| LabelValue.TruncatedValid | internal/nodeexporter/exporter.go:263-278 | well-formed UTF-8 stays well-formed |
| LabelValue.TruncatedKeepsLongestPrefix | internal/nodeexporter/exporter.go:268-278 | an over-long value keeps its longest well-formed prefix of at most 1021 bytes, at least 1018, and the marker |
| OsRelease.ParseOSRelease | internal/nodeexporter/osrelease.go:12-33 | the scanning loop computes the specified map, whose lines are those of ParseLineIff |
| OsRelease.TrimSpaceIff | internal/nodeexporter/osrelease.go:16 | trimming removes the surrounding white space, all of it and nothing else |
| OsRelease.ParseLineIff | internal/nodeexporter/osrelease.go:16-27 | a line contributes key and value iff, trimmed, it is key, the first '=', and the value as it is or between two equal quotes |
| OsRelease.ParseLineSkipsIff | internal/nodeexporter/osrelease.go:16-23 | exactly the blank lines, the comments and the lines without '=' contribute nothing |
| OsRelease.SkippedAddsNothing | internal/nodeexporter/osrelease.go:16-23 | such a line adds nothing to the text before it |
| OsRelease.ParsedConcat | internal/nodeexporter/osrelease.go:12-33 | two texts joined by a newline parse to the first overridden by the second |
| OsRelease.RoundTrip | internal/nodeexporter/osrelease.go:12-33 | parsing entries written double-quoted, single-quoted or bare gives their map back, quotes inside values included |
| OsRelease.EntryRoundTripsIff | internal/nodeexporter/osrelease.go:16-27 | an entry parses back iff its key is free of '=' and newline and starts with neither '#' nor white space, and, if it is bare, its value ends in no white space and is not between matching quotes |
| OsRelease.MapRoundTripIff | internal/nodeexporter/osrelease.go:12-33 | a map comes back from its printing, in any order and styles its values allow, iff all its keys are so |
| NodeImages.Requested | internal/nodeexporter/exporter.go:215-225 | the identifiers asked for are the nonempty ones of the containers, each once |
| NodeImages.GatherInUse | internal/nodeexporter/exporter.go:209-233 | each identifier wanted is asked for once, in the order of the containers that want it first, the reported reference preferred to the image string; the images gathered are those the runtime reports, in that order |
| NodeImages.ImageSampleIff | internal/nodeexporter/exporter.go:241-278 | the samples of an image, descriptor by descriptor |
| NodeImages.EmitImageMetrics | internal/nodeexporter/exporter.go:241-261 | exactly the creation time and the allowed, capped labels of an image with an identifier, no series twice |
| NodeImages.ShareSeriesIff | internal/nodeexporter/exporter.go:241-261 | two images share a series iff they have one nonempty identifier and both a creation time, or one allowed label with equal capped values |
| NodeImages.CollectImages | internal/nodeexporter/exporter.go:193-202 | exactly the samples of all images, and a series repeats iff two images are such |
| NodeImages.ClashIffAliases | internal/nodeexporter/exporter.go:209-233 | the images gathered for some identifiers clash iff two of the identifiers resolve to such images |
| NodeImages.CollectInUse | internal/nodeexporter/exporter.go:193-233 | in only-in-use mode, a series repeats iff two requested identifiers resolve to such images |
| NodeImages.InUseSeriesUnique | internal/nodeexporter/exporter.go:204-234 | in particular, no series repeats when the runtime keeps distinct requested identifiers apart |
| NodeImages.AliasesGatherTwice | internal/nodeexporter/exporter.go:215-231 | two identifiers of one image are both gathered, and series repeat iff the image has an identifier and a creation time or an allowed label |
| Reconciling.GetImage | internal/clusterexporter/reconciler.go:137-221 | on its own, a call returns a fresh entry, an expiry error, or the fetched image after storing it |
| Reconciling.AddJitter | internal/clusterexporter/reconciler.go:128-135 | a duration of 6 or more is extended by less than a sixth, 1 to 5 panics, others are unchanged; sums wrap at 64 bits |
| Reconciling.DistinctImages | internal/clusterexporter/reconciler.go:97-103 | the images called for are those of the containers, each once |
| Reconciling.CallAll | internal/clusterexporter/reconciler.go:97-112 | every distinct image is called for at its first appearance whatever fails, and the failures are collected in order, each with its image and error |
| Reconciling.Reconcile | internal/clusterexporter/reconciler.go:97-122 | a requeue happens iff no call failed, no earlier than the cache duration; a duration of 1 to 5 panics before failures are looked at |

## Left out

- The Kubernetes client, informers, the manager and resource discovery: a list is modelled as returning what its kind's workloads name at that moment, or failing.
- Registry access, manifest and config parsing, platform resolution and the sum of layer sizes: a fetch is a step that returns an error or any image with a nonempty digest, equal to the reference's own digest when it has one.
- The singleflight, semaphore and rate limiter libraries: singleflight and semaphore are modelled by the steps they allow; the rate limiter only as a wait that ends or is cancelled, without a rate.
- Running without a cache or without a singleflight group: the program always configures both.
- Keychains and pull secrets, the CRI client and its JSON decoding, listing all node images, reading /proc.
- The grammar of image references: a reference is a tag or a digest with its text, and parsing is an arbitrary function where it appears.
- The latency histogram of the metrics layer, and panics of the base transport.
- The line length limit of the os-release scanner, and text that is not valid UTF-8 in it.
- Floating point conversions of sample values: values are integers.
- Concurrency inside the classes: each locked operation is one call; interleavings are the subject of the state machines.
- Collect.Collect: does not say in which order samples are sent, because the order of map entries is unspecified and Prometheus ignores it.
- Transport.ConcurrencyTransport.RoundTrip: describes one request on its own; a request that would wait for a permit is turned away, while the state machine models the waiting.
