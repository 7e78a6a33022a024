/** What holds over whole runs of the protocol: which images survive scrapes,
    where answers come from, and when a reference is fetched again. */
module ProtocolSafety {
  import opened Options
  import opened References
  import opened ImageCache
  import opened CacheLaws
  import opened Protocol
  import opened ProtocolInvariants

  // ---- Retention -------------------------------------------------------

  /** The cached time of the image a key points to. */
  ghost function TimeOf(c: Cache, key: string): int
    requires key in c.digestMap && c.digestMap[key] in c.imageMap
  {
    c.imageMap[c.digestMap[key]].time
  }

  /** r is cached under its own key, and no scrape in progress can evict it
      while kind k names it: the scrape began before r was cached, or has yet
      to list kind k, or found r. */
  ghost predicate Guarded(s: State, r: Ref, k: nat) {
    var key := r.String();
    && k < |s.live|
    && key in s.cache.digestMap
    && s.cache.digestMap[key] in s.cache.imageMap
    && (r.Digest? ==> s.cache.digestMap[key] == r.digest)
    && forall c :: c in s.collectors ==> Harmless(s.collectors[c], TimeOf(s.cache, key), r, k)
  }

  /** A scrape that cannot evict r, cached at the given time, while kind k names it. */
  ghost predicate Harmless(c: Collector, time: int, r: Ref, k: nat) {
    time >= c.epoch || c.listed <= k || r in c.refs
  }

  lemma GuardedHits(cfg: Config, s: State, r: Ref, k: nat)
    requires Inv(cfg, s) && Guarded(s, r, k)
    ensures Lookup(s.cache, r) == Some(s.cache.imageMap[s.cache.digestMap[r.String()]])
  {
  }

  lemma PutGuards(cfg: Config, s: State, f: nat, s': State, k: nat)
    requires Inv(cfg, s) && Stepped(cfg, s, FlightPut(f), s') && k < cfg.kinds
    ensures Guarded(s', s.flights[f].ref, k)
  {
  }

  lemma GuardedThroughEvict(cfg: Config, s: State, c: nat, s': State, r: Ref, k: nat)
    requires Inv(cfg, s) && Guarded(s, r, k) && Stepped(cfg, s, ScrapeEvict(c), s')
    ensures Guarded(s', r, k)
    ensures s'.cache.digestMap[r.String()] == s.cache.digestMap[r.String()]
  {
    var x, key := s.collectors[c], r.String();
    assert Kept(s.cache, Keys(x.refs), x.epoch, key);
    assert s'.cache.digestMap[key] in s'.cache.digestMap.Values;
  }

  lemma GuardedThroughPut(cfg: Config, s: State, f: nat, s': State, r: Ref, k: nat)
    requires Inv(cfg, s) && Guarded(s, r, k) && Stepped(cfg, s, FlightPut(f), s')
    ensures Guarded(s', r, k)
  {
    var key := r.String();
    if s.flights[f].ref.String() == key {
      StringInjective(s.flights[f].ref, r);
    }
    assert key in s'.cache.digestMap && s'.cache.digestMap[key] in s'.cache.imageMap;
  }

  lemma GuardedThroughScrape(cfg: Config, s: State, step: Step, s': State, r: Ref, k: nat)
    requires Guarded(s, r, k) && r in s.live[k] && |s.live| == cfg.kinds && Stepped(cfg, s, step, s')
    requires s'.cache == s.cache
    ensures Guarded(s', r, k)
  {
    var time := TimeOf(s.cache, r.String());
    forall c | c in s'.collectors
      ensures Harmless(s'.collectors[c], time, r, k)
    {
      if c in s.collectors {
        assert Harmless(s.collectors[c], time, r, k);
        if step.ScrapeList? && step.c == c && s.collectors[c].listed == k {
          assert r in (set x | x in step.items);
        }
      }
    }
  }

  lemma GuardedPreserved(cfg: Config, s: State, step: Step, s': State, r: Ref, k: nat)
    requires Inv(cfg, s) && Guarded(s, r, k) && r in s.live[k] && Stepped(cfg, s, step, s')
    ensures Guarded(s', r, k)
  {
    if step.ScrapeEvict? {
      GuardedThroughEvict(cfg, s, step.c, s', r, k);
    } else if step.FlightPut? {
      GuardedThroughPut(cfg, s, step.f, s', r, k);
    } else {
      GuardedThroughScrape(cfg, s, step, s', r, k);
    }
  }

  lemma {:induction false} GuardedThroughout(
      cfg: Config, ss: seq<State>, ts: seq<Step>, p: nat, q: nat, r: Ref, k: nat)
    requires Run(cfg, ss, ts) && p <= q < |ss| && k < cfg.kinds
    requires Guarded(ss[p], r, k)
    requires forall i :: p <= i < q ==> k < |ss[i].live| && r in ss[i].live[k]
    ensures Guarded(ss[q], r, k)
  {
    if p < q {
      GuardedThroughout(cfg, ss, ts, p, q - 1, r, k);
      Reachable(cfg, ss, ts, q - 1);
      assert Stepped(cfg, ss[q - 1], ts[q - 1], ss[q]);
      GuardedPreserved(cfg, ss[q - 1], ts[q - 1], ss[q], r, k);
    }
  }

  /** Live-image retention. In every run, a reference that was put and is named
      by one kind's workloads ever since still hits, whatever scrapes overlap. */
  lemma LiveImageRetained(
      cfg: Config, ss: seq<State>, ts: seq<Step>, p: nat, q: nat, f: nat, r: Ref, k: nat)
    requires Run(cfg, ss, ts) && p < q < |ss| && k < cfg.kinds
    requires ts[p] == FlightPut(f) && f in ss[p].flights && ss[p].flights[f].ref == r
    requires forall i :: p < i < q ==> k < |ss[i].live| && r in ss[i].live[k]
    ensures Lookup(ss[q].cache, r).Some?
  {
    Reachable(cfg, ss, ts, p);
    assert Stepped(cfg, ss[p], ts[p], ss[p + 1]);
    PutGuards(cfg, ss[p], f, ss[p + 1], k);
    GuardedThroughout(cfg, ss, ts, p + 1, q, r, k);
    Reachable(cfg, ss, ts, q);
    GuardedHits(cfg, ss[q], r, k);
  }

  // ---- Collection ------------------------------------------------------

  /** No workload of any kind names r. */
  ghost predicate Unreferenced(s: State, r: Ref) {
    forall k :: 0 <= k < |s.live| ==> r !in s.live[k]
  }

  /** Step i listed a kind for scrape c while that kind named r. */
  ghost predicate FoundAt(ss: seq<State>, ts: seq<Step>, i: nat, c: nat, r: Ref) {
    && i < |ts| && i < |ss|
    && ts[i].ScrapeList? && ts[i].c == c && c in ss[i].collectors
    && ss[i].collectors[c].listed < |ss[i].live|
    && r in ss[i].live[ss[i].collectors[c].listed]
  }

  ghost predicate FoundBetween(ss: seq<State>, ts: seq<Step>, b: nat, e: nat, c: nat, r: Ref) {
    exists i :: b < i < e && FoundAt(ss, ts, i, c, r)
  }

  /** One scrape, from its beginning to its eviction. */
  ghost predicate Scrape(cfg: Config, ss: seq<State>, ts: seq<Step>, b: nat, e: nat, c: nat) {
    && Run(cfg, ss, ts) && b < e < |ts|
    && ts[b] == ScrapeBegin(c) && ts[e] == ScrapeEvict(c)
    && forall i :: b < i < e ==> ts[i] != ScrapeBegin(c)
  }

  /** What a scrape hands to its eviction: the clock of its beginning, and exactly what its lists found. */
  lemma {:induction false} ScrapeFinds(
      cfg: Config, ss: seq<State>, ts: seq<Step>, b: nat, e: nat, c: nat, r: Ref)
    requires Run(cfg, ss, ts) && b < e < |ss| && ts[b] == ScrapeBegin(c)
    requires forall i :: b < i < e ==> ts[i] != ScrapeBegin(c)
    ensures c in ss[e].collectors ==>
              && ss[e].collectors[c].epoch == ss[b].clock
              && (r in ss[e].collectors[c].refs <==> FoundBetween(ss, ts, b, e, c, r))
  {
    var i := e - 1;
    assert Stepped(cfg, ss[i], ts[i], ss[e]);
    if b < i {
      ScrapeFinds(cfg, ss, ts, b, i, c, r);
      assert FoundBetween(ss, ts, b, e, c, r) <==> FoundBetween(ss, ts, b, i, c, r) || FoundAt(ss, ts, i, c, r);
      if ts[i].ScrapeList? && ts[i].c == c {
        assert r in ts[i].items <==> r in (set x | x in ts[i].items);
      }
    }
  }

  /** What decides whether a scrape keeps r: a recent image, or a list that found r. */
  ghost predicate Spared(ss: seq<State>, ts: seq<Step>, b: nat, e: nat, c: nat, r: Ref)
    requires b < |ss| && e < |ss| && r.String() in ss[e].cache.digestMap
    requires ss[e].cache.digestMap[r.String()] in ss[e].cache.imageMap
  {
    TimeOf(ss[e].cache, r.String()) >= ss[b].clock || FoundBetween(ss, ts, b, e, c, r)
  }

  /** Exactly what a scrape keeps. A cached reference stays cached, and a tag
      goes on to hit, iff its image was cached no earlier than the scrape began,
      or one of the scrape's lists was taken while the kind it listed named the
      reference. Being named at any other moment does not count. */
  lemma SurvivesScrapeIff(cfg: Config, ss: seq<State>, ts: seq<Step>, b: nat, e: nat, c: nat, r: Ref)
    requires Scrape(cfg, ss, ts, b, e, c) && r.String() in ss[e].cache.digestMap
    ensures ss[e].cache.digestMap[r.String()] in ss[e].cache.imageMap
    ensures r.String() in ss[e + 1].cache.digestMap <==> Spared(ss, ts, b, e, c, r)
    ensures r.Tag? ==> (Lookup(ss[e + 1].cache, r).Some? <==> Spared(ss, ts, b, e, c, r))
  {
    Reachable(cfg, ss, ts, e);
    ScrapeFinds(cfg, ss, ts, b, e, c, r);
    assert Stepped(cfg, ss[e], ts[e], ss[e + 1]);
    var x, key := ss[e].collectors[c], r.String();
    if key in Keys(x.refs) {
      var other :| other in x.refs && other.String() == key;
      StringInjective(other, r);
    }
    if key in ss[e + 1].cache.digestMap {
      assert ss[e + 1].cache.digestMap[key] in ss[e + 1].cache.digestMap.Values;
    }
  }

  /** The other half of retention: a reference no workload names from the start
      of a scrape to its eviction is gone afterwards, unless its digest was
      cached at or after the scrape began. */
  lemma UnreferencedCollected(
      cfg: Config, ss: seq<State>, ts: seq<Step>, b: nat, e: nat, c: nat, r: Ref)
    requires Scrape(cfg, ss, ts, b, e, c)
    requires forall i :: b <= i < e ==> Unreferenced(ss[i], r)
    ensures r.String() in ss[e + 1].cache.digestMap <==>
              && r.String() in ss[e].cache.digestMap
              && ss[e].cache.digestMap[r.String()] in ss[e].cache.imageMap
              && TimeOf(ss[e].cache, r.String()) >= ss[b].clock
  {
    assert Stepped(cfg, ss[e], ts[e], ss[e + 1]);
    if r.String() in ss[e].cache.digestMap {
      SurvivesScrapeIff(cfg, ss, ts, b, e, c, r);
    }
    forall i | b < i < e
      ensures !FoundAt(ss, ts, i, c, r)
    {
      assert Unreferenced(ss[i], r);
    }
  }

  /** Every cached time is the clock of some store. */
  lemma {:induction false} TimesAreOfPuts(cfg: Config, ss: seq<State>, ts: seq<Step>, q: nat, digest: string)
    requires Run(cfg, ss, ts) && q < |ss| && digest in ss[q].cache.imageMap
    ensures exists i :: 0 <= i < q && ts[i].FlightPut? && ss[i].clock == ss[q].cache.imageMap[digest].time
  {
    if q > 0 {
      var s, s' := ss[q - 1], ss[q];
      assert Stepped(cfg, s, ts[q - 1], s');
      if digest in s.cache.imageMap && s'.cache.imageMap[digest] == s.cache.imageMap[digest] {
        TimesAreOfPuts(cfg, ss, ts, q - 1, digest);
      }
    }
  }

  /** What the eviction leaves, when every cached image is older than the epoch. */
  lemma OldCacheLeaves(cfg: Config, s: State, c: nat, s': State)
    requires Stepped(cfg, s, ScrapeEvict(c), s')
    requires forall digest :: digest in s.cache.imageMap ==> s.cache.imageMap[digest].time < s.collectors[c].epoch
    ensures |s'.cache.imageMap.Keys| <= |s'.cache.digestMap.Keys| <= |Keys(s.collectors[c].refs)|
  {
    EvictLeavesOnlyActive(s.cache, Keys(s.collectors[c].refs), s.collectors[c].epoch);
  }

  lemma AllOlder(cfg: Config, ss: seq<State>, ts: seq<Step>, e: nat, epoch: int)
    requires Run(cfg, ss, ts) && e < |ss|
    requires forall i :: 0 <= i < e && ts[i].FlightPut? ==> ss[i].clock < epoch
    ensures forall digest :: digest in ss[e].cache.imageMap ==> ss[e].cache.imageMap[digest].time < epoch
  {
    forall digest | digest in ss[e].cache.imageMap
      ensures ss[e].cache.imageMap[digest].time < epoch
    {
      TimesAreOfPuts(cfg, ss, ts, e, digest);
    }
  }

  lemma OnlyFoundRemain(cfg: Config, ss: seq<State>, ts: seq<Step>, b: nat, e: nat, c: nat, r: Ref)
    requires Scrape(cfg, ss, ts, b, e, c)
    requires forall digest :: digest in ss[e].cache.imageMap ==> ss[e].cache.imageMap[digest].time < ss[b].clock
    ensures r.String() in ss[e + 1].cache.digestMap <==>
              r.String() in ss[e].cache.digestMap && FoundBetween(ss, ts, b, e, c, r)
  {
    assert Stepped(cfg, ss[e], ts[e], ss[e + 1]);
    if r.String() in ss[e].cache.digestMap {
      SurvivesScrapeIff(cfg, ss, ts, b, e, c, r);
    }
  }

  lemma FewRemain(cfg: Config, ss: seq<State>, ts: seq<Step>, b: nat, e: nat, c: nat)
    requires Scrape(cfg, ss, ts, b, e, c)
    requires forall digest :: digest in ss[e].cache.imageMap ==> ss[e].cache.imageMap[digest].time < ss[b].clock
    ensures c in ss[e].collectors
    ensures |ss[e + 1].cache.imageMap.Keys| <= |ss[e + 1].cache.digestMap.Keys| <= |Keys(ss[e].collectors[c].refs)|
  {
    assert Stepped(cfg, ss[e], ts[e], ss[e + 1]);
    ScrapeFinds(cfg, ss, ts, b, e, c, Tag("scratch"));
    OldCacheLeaves(cfg, ss[e], c, ss[e + 1]);
  }

  /** No leak: when nothing has been stored at or after a scrape's epoch, its
      eviction leaves exactly the cached references its lists found, no more
      keys than those, and no more images than keys. */
  lemma ScrapeLeavesOnlyFound(cfg: Config, ss: seq<State>, ts: seq<Step>, b: nat, e: nat, c: nat)
    requires Scrape(cfg, ss, ts, b, e, c)
    requires forall i :: 0 <= i < e && ts[i].FlightPut? ==> ss[i].clock < ss[b].clock
    ensures forall r: Ref :: r.String() in ss[e + 1].cache.digestMap <==>
              r.String() in ss[e].cache.digestMap && FoundBetween(ss, ts, b, e, c, r)
    ensures c in ss[e].collectors
    ensures |ss[e + 1].cache.imageMap.Keys| <= |ss[e + 1].cache.digestMap.Keys| <= |Keys(ss[e].collectors[c].refs)|
  {
    AllOlder(cfg, ss, ts, e, ss[b].clock);
    FewRemain(cfg, ss, ts, b, e, c);
    forall r: Ref
      ensures r.String() in ss[e + 1].cache.digestMap <==>
        r.String() in ss[e].cache.digestMap && FoundBetween(ss, ts, b, e, c, r)
    {
      OnlyFoundRemain(cfg, ss, ts, b, e, c, r);
    }
  }

  // ---- Fetch discipline --------------------------------------------------

  /** At most one fetch per reference is running at any moment. */
  lemma AtMostOneFetch(cfg: Config, ss: seq<State>, ts: seq<Step>, i: nat, f: nat, g: nat)
    requires Run(cfg, ss, ts) && i < |ss|
    requires f in ss[i].flights && g in ss[i].flights && Running(ss[i].flights[f]) && Running(ss[i].flights[g])
    requires ss[i].flights[f].ref == ss[i].flights[g].ref
    ensures f == g
  {
    Reachable(cfg, ss, ts, i);
  }

  /** Calls that shared a fetch return the same thing. */
  lemma FollowersAgree(cfg: Config, ss: seq<State>, ts: seq<Step>, i: nat, a: nat, b: nat)
    requires Run(cfg, ss, ts) && i < |ss| && a in ss[i].calls && b in ss[i].calls
    requires ss[i].calls[a].phase.Returned? && ss[i].calls[b].phase.Returned?
    requires ss[i].calls[a].phase.outcome.FromFetch?
    requires ss[i].calls[b].phase.outcome.FromFetch? || ss[i].calls[b].phase.outcome.FetchError?
    requires ss[i].calls[a].phase.outcome.flight == ss[i].calls[b].phase.outcome.flight
    ensures ss[i].calls[a].phase == ss[i].calls[b].phase && ss[i].calls[a].ref == ss[i].calls[b].ref
  {
    Reachable(cfg, ss, ts, i);
    assert CallInv(cfg, ss[i], ss[i].calls[a]) && CallInv(cfg, ss[i], ss[i].calls[b]);
  }

  /** Step j is call id's own cache lookup, and it saw hit. */
  ghost predicate LookupSaw(ss: seq<State>, ts: seq<Step>, id: nat, j: nat, hit: Option<CachedImage>) {
    && j < |ts| && j < |ss|
    && ts[j] == CallLookup(id)
    && id in ss[j].calls
    && hit == Lookup(ss[j].cache, ss[j].calls[id].ref)
  }

  ghost predicate SawBefore(ss: seq<State>, ts: seq<Step>, id: nat, i: nat, hit: Option<CachedImage>) {
    exists j :: 0 <= j < i && LookupSaw(ss, ts, id, j, hit)
  }

  /** What a phase remembers of the call's lookup is what that lookup saw. */
  ghost predicate Remembers(ss: seq<State>, ts: seq<Step>, id: nat, i: nat, phase: CallPhase) {
    match phase
    case LookedUp(hit) => SawBefore(ss, ts, id, i, hit)
    case Missed(seen) => SawBefore(ss, ts, id, i, seen)
    case Returned(FromCache(entry, _)) => SawBefore(ss, ts, id, i, Some(entry))
    case Returned(ExpiredError(entry, _)) => SawBefore(ss, ts, id, i, Some(entry))
    case _ => true
  }

  lemma {:induction false} CallsRemember(cfg: Config, ss: seq<State>, ts: seq<Step>, i: nat, id: nat)
    requires Run(cfg, ss, ts) && i < |ss| && id in ss[i].calls
    ensures Remembers(ss, ts, id, i, ss[i].calls[id].phase)
    decreases i
  {
    if i > 0 {
      assert Stepped(cfg, ss[i - 1], ts[i - 1], ss[i]);
      if id in ss[i - 1].calls {
        CallsRemember(cfg, ss, ts, i - 1, id);
        if ts[i - 1] == CallLookup(id) {
          assert LookupSaw(ss, ts, id, i - 1, Lookup(ss[i - 1].cache, ss[i - 1].calls[id].ref));
        }
      }
    }
  }

  lemma {:induction false} CallStays(cfg: Config, ss: seq<State>, ts: seq<Step>, p: nat, q: nat, id: nat)
    requires Run(cfg, ss, ts) && p <= q < |ss| && id in ss[p].calls
    ensures id in ss[q].calls && ss[q].calls[id].ref == ss[p].calls[id].ref
  {
    if p < q {
      CallStays(cfg, ss, ts, p, q - 1, id);
      assert Stepped(cfg, ss[q - 1], ts[q - 1], ss[q]);
    }
  }

  /** As written, a call goes on to fetch only if its own lookup missed. */
  lemma FetchOnlyAfterMiss(cfg: Config, ss: seq<State>, ts: seq<Step>, i: nat, id: nat, newFlight: nat)
    requires Run(cfg, ss, ts) && i < |ts| && ts[i] == CallJoin(id, newFlight) && !cfg.refreshExpired
    ensures SawBefore(ss, ts, id, i, None)
  {
    assert Stepped(cfg, ss[i], ts[i], ss[i + 1]);
    Reachable(cfg, ss, ts, i);
    assert CallInv(cfg, ss[i], ss[i].calls[id]);
    CallsRemember(cfg, ss, ts, i, id);
  }

  // ---- Freshness of getImage ----------------------------------------------

  /** Step i ended flight f with this image while call id was waiting on it. */
  ghost predicate DeliveredAt(ss: seq<State>, ts: seq<Step>, id: nat, i: nat, f: nat, image: Image) {
    && i < |ts| && i < |ss|
    && ts[i] == FlightFinish(f)
    && id in ss[i].calls && ss[i].calls[id].phase == Waiting(f)
    && f in ss[i].flights && ss[i].flights[f].phase == Landed(image)
  }

  /** Step i checked the entry against the clock for call id and found it fresh. */
  ghost predicate CheckedFreshAt(cfg: Config, ss: seq<State>, ts: seq<Step>, id: nat, i: nat, entry: CachedImage) {
    && i < |ts| && i < |ss|
    && ts[i] == CallCheck(id)
    && ss[i].clock < entry.time + cfg.cacheDuration
    && SawBefore(ss, ts, id, i, Some(entry))
  }

  /** Step i ended flight f as failed while call id was waiting on it. */
  ghost predicate FailedAt(ss: seq<State>, ts: seq<Step>, id: nat, i: nat, f: nat) {
    && i < |ts| && i < |ss|
    && ts[i] == FlightFinish(f)
    && id in ss[i].calls && ss[i].calls[id].phase == Waiting(f)
    && f in ss[i].flights && ss[i].flights[f].phase == Failed
  }

  /** Step i checked the entry against the clock for call id and found it expired. */
  ghost predicate CheckedExpiredAt(cfg: Config, ss: seq<State>, ts: seq<Step>, id: nat, i: nat, entry: CachedImage) {
    && i < |ts| && i < |ss|
    && ts[i] == CallCheck(id)
    && ss[i].clock >= entry.time + cfg.cacheDuration
    && SawBefore(ss, ts, id, i, Some(entry))
  }

  ghost predicate Justified(cfg: Config, ss: seq<State>, ts: seq<Step>, id: nat, q: nat, outcome: Outcome) {
    match outcome
    case FromCache(entry, _) => exists i :: 0 <= i < q && CheckedFreshAt(cfg, ss, ts, id, i, entry)
    case FromFetch(f, image) => exists i :: 0 <= i < q && DeliveredAt(ss, ts, id, i, f, image)
    case FetchError(f) => exists i :: 0 <= i < q && FailedAt(ss, ts, id, i, f)
    case ExpiredError(entry, _) => exists i :: 0 <= i < q && CheckedExpiredAt(cfg, ss, ts, id, i, entry)
  }

  /** A call returns in one of two steps: the end of the fetch it waits on, or its own check. */
  lemma ReturnStep(cfg: Config, s: State, step: Step, s': State, id: nat)
    requires Stepped(cfg, s, step, s') && id in s'.calls && s'.calls[id].phase.Returned?
    requires !(id in s.calls && s.calls[id].phase.Returned?)
    ensures id in s.calls
    ensures step.FlightFinish? || step == CallCheck(id)
  {
  }

  lemma DeliveredJustified(cfg: Config, ss: seq<State>, ts: seq<Step>, i: nat, id: nat)
    requires Run(cfg, ss, ts) && i < |ts| && ts[i].FlightFinish? && id in ss[i].calls
    requires !ss[i].calls[id].phase.Returned? && ss[i + 1].calls[id].phase.Returned?
    ensures Justified(cfg, ss, ts, id, i + 1, ss[i + 1].calls[id].phase.outcome)
  {
    assert Stepped(cfg, ss[i], ts[i], ss[i + 1]);
    var f, outcome := ts[i].f, ss[i + 1].calls[id].phase.outcome;
    if outcome.FromFetch? {
      assert DeliveredAt(ss, ts, id, i, f, outcome.image);
    } else {
      assert FailedAt(ss, ts, id, i, f);
    }
  }

  lemma CheckedJustified(cfg: Config, ss: seq<State>, ts: seq<Step>, i: nat, id: nat)
    requires Run(cfg, ss, ts) && i < |ts| && ts[i] == CallCheck(id)
    requires id in ss[i + 1].calls && ss[i + 1].calls[id].phase.Returned?
    ensures Justified(cfg, ss, ts, id, i + 1, ss[i + 1].calls[id].phase.outcome)
  {
    assert Stepped(cfg, ss[i], ts[i], ss[i + 1]);
    CallsRemember(cfg, ss, ts, i, id);
    var outcome := ss[i + 1].calls[id].phase.outcome;
    if outcome.FromCache? {
      assert CheckedFreshAt(cfg, ss, ts, id, i, outcome.entry);
    } else {
      assert CheckedExpiredAt(cfg, ss, ts, id, i, outcome.expired);
    }
  }

  /** Every image a call returns is a cache entry its own lookup saw and its own
      check found fresh, or the result of a fetch that was still running while
      the call waited on it; every error is such a fetch's, or that of an entry
      its own check found expired. */
  lemma {:induction false} ReturnedImageIsFresh(cfg: Config, ss: seq<State>, ts: seq<Step>, q: nat, id: nat)
    requires Run(cfg, ss, ts) && q < |ss| && id in ss[q].calls && ss[q].calls[id].phase.Returned?
    ensures Justified(cfg, ss, ts, id, q, ss[q].calls[id].phase.outcome)
    decreases q
  {
    if q > 0 {
      var i := q - 1;
      assert Stepped(cfg, ss[i], ts[i], ss[q]);
      if id in ss[i].calls && ss[i].calls[id].phase.Returned? {
        ReturnedImageIsFresh(cfg, ss, ts, i, id);
        ReturnedStays(cfg, ss, ts, i, q, id);
      } else {
        ReturnStep(cfg, ss[i], ts[i], ss[q], id);
        if ts[i].FlightFinish? {
          DeliveredJustified(cfg, ss, ts, i, id);
        } else {
          CheckedJustified(cfg, ss, ts, i, id);
        }
      }
    }
  }

  lemma {:induction false} ReturnedStays(cfg: Config, ss: seq<State>, ts: seq<Step>, p: nat, q: nat, id: nat)
    requires Run(cfg, ss, ts) && p <= q < |ss| && id in ss[p].calls && ss[p].calls[id].phase.Returned?
    ensures id in ss[q].calls && ss[q].calls[id] == ss[p].calls[id]
  {
    if p < q {
      ReturnedStays(cfg, ss, ts, p, q - 1, id);
      assert Stepped(cfg, ss[q - 1], ts[q - 1], ss[q]);
    }
  }

  /** From the moment a call has decided to fetch, it can only end with the fetch's outcome. */
  ghost predicate OnFetchPath(phase: CallPhase) {
    || phase.Missed? || phase.Waiting?
    || (phase.Returned? && (phase.outcome.FromFetch? || phase.outcome.FetchError?))
  }

  lemma {:induction false} FetchPathStays(cfg: Config, ss: seq<State>, ts: seq<Step>, p: nat, q: nat, id: nat)
    requires Run(cfg, ss, ts) && p <= q < |ss| && id in ss[p].calls && OnFetchPath(ss[p].calls[id].phase)
    ensures id in ss[q].calls && OnFetchPath(ss[q].calls[id].phase)
  {
    if p < q {
      FetchPathStays(cfg, ss, ts, p, q - 1, id);
      assert Stepped(cfg, ss[q - 1], ts[q - 1], ss[q]);
    }
  }

  /** What becomes of a call whose lookup hit. It is answered from the cache
      iff the entry is fresh when checked. An expired entry ends the call as
      written with an error, and under the corrected guard only with what a
      fetch delivers; so it fails as expired iff the entry has expired. */
  lemma ExpiredHit(cfg: Config, ss: seq<State>, ts: seq<Step>, i: nat, q: nat, id: nat, entry: CachedImage)
    requires Run(cfg, ss, ts) && i < q < |ss| && ts[i] == CallCheck(id)
    requires id in ss[i].calls && ss[i].calls[id].phase == LookedUp(Some(entry))
    requires id in ss[q].calls && ss[q].calls[id].phase.Returned?
    ensures var outcome := ss[q].calls[id].phase.outcome;
            var expired := ss[i].clock >= entry.time + cfg.cacheDuration;
            && (!expired <==> outcome == FromCache(entry, ss[i].clock))
            && (expired && !cfg.refreshExpired <==> outcome == ExpiredError(entry, ss[i].clock))
            && (expired && cfg.refreshExpired <==> outcome.FromFetch? || outcome.FetchError?)
  {
    assert Stepped(cfg, ss[i], ts[i], ss[i + 1]);
    if ss[i + 1].calls[id].phase.Missed? {
      FetchPathStays(cfg, ss, ts, i + 1, q, id);
    } else {
      ReturnedStays(cfg, ss, ts, i + 1, q, id);
    }
  }

  // ---- Nothing gets stuck -------------------------------------------------------

  lemma SomeItems(refs: set<Ref>) returns (items: seq<Ref>)
    ensures (set r | r in items) == refs
  {
    items := [];
    if refs != {} {
      var r :| r in refs;
      var rest := SomeItems(refs - {r});
      items := [r] + rest;
      assert (set x | x in items) == {r} + (set x | x in rest);
    }
  }

  /** A scrape under way can always take its next step: its next list, its next read, or its eviction. */
  lemma ScrapeProceeds(cfg: Config, ss: seq<State>, ts: seq<Step>, i: nat, c: nat) returns (step: Step)
    requires Run(cfg, ss, ts) && i < |ss| && c in ss[i].collectors
    ensures Enabled(cfg, ss[i], step)
    ensures var x := ss[i].collectors[c];
            if x.listed < cfg.kinds then step.ScrapeList? && step.c == c
            else if x.next < |x.refs| then step == ScrapeRead(c)
            else step == ScrapeEvict(c)
  {
    Reachable(cfg, ss, ts, i);
    var x := ss[i].collectors[c];
    assert CollectorInv(cfg, ss[i], x);
    if x.listed < cfg.kinds {
      var items := SomeItems(ss[i].live[x.listed]);
      step := ScrapeList(c, items);
    } else if x.next < |x.refs| {
      step := ScrapeRead(c);
    } else {
      step := ScrapeEvict(c);
    }
  }

  /** The steps that move a call on: its own, or those of the fetch it waits on. */
  predicate Advances(step: Step, id: nat, phase: CallPhase) {
    match phase
    case Begun => step == CallLookup(id)
    case LookedUp(_) => step == CallCheck(id)
    case Missed(_) => step.CallJoin? && step.id == id
    case Waiting(f) => step == FlightPut(f) || step == FlightFinish(f) || (step.FlightFetch? && step.f == f)
    case Returned(_) => false
  }

  lemma UnusedId(used: set<nat>) returns (n: nat)
    ensures n !in used && forall m :: m in used ==> m < n
  {
    n := 0;
    if used != {} {
      var m :| m in used;
      var rest := used - {m};
      n := UnusedId(rest);
      n := if m < n then n else m + 1;
      assert used == rest + {m};
    }
  }

  /** A call that has not returned can always be moved on; in particular no
      call waits on a fetch that cannot finish. */
  lemma CallProceeds(cfg: Config, ss: seq<State>, ts: seq<Step>, i: nat, id: nat) returns (step: Step)
    requires Run(cfg, ss, ts) && i < |ss| && id in ss[i].calls && !ss[i].calls[id].phase.Returned?
    ensures Enabled(cfg, ss[i], step) && Advances(step, id, ss[i].calls[id].phase)
  {
    Reachable(cfg, ss, ts, i);
    assert CallInv(cfg, ss[i], ss[i].calls[id]);
    match ss[i].calls[id].phase
    case Begun => step := CallLookup(id);
    case LookedUp(_) => step := CallCheck(id);
    case Missed(_) =>
      var f := UnusedId(ss[i].flights.Keys);
      step := CallJoin(id, f);
    case Waiting(f) =>
      match ss[i].flights[f].phase {
        case Fetching => step := FlightFetch(f, None);
        case Fetched(_) => step := FlightPut(f);
        case _ => step := FlightFinish(f);
      }
  }

  // ---- What a scrape reads -----------------------------------------------------

  /** Step i is a read of scrape c, of its k-th reference r. */
  ghost predicate ReadAt(ss: seq<State>, ts: seq<Step>, i: nat, c: nat, k: nat, r: Ref) {
    && i < |ts| && i < |ss|
    && ts[i] == ScrapeRead(c) && c in ss[i].collectors
    && ss[i].collectors[c].next == k < |ss[i].collectors[c].refs|
    && ss[i].collectors[c].refs[k] == r
  }

  /** A read of scrape c found this entry in the cache. */
  ghost predicate HitAt(ss: seq<State>, ts: seq<Step>, i: nat, c: nat, entry: CachedImage) {
    exists k: nat, r :: ReadAt(ss, ts, i, c, k, r) && Lookup(ss[i].cache, r) == Some(entry)
  }

  ghost predicate HitsDigestAt(ss: seq<State>, ts: seq<Step>, i: nat, c: nat, digest: string) {
    exists entry :: HitAt(ss, ts, i, c, entry) && entry.image.digest == digest
  }

  /** Step i is the first read of the scrape begun at b to hit this entry's digest. */
  ghost predicate FirstHitAt(ss: seq<State>, ts: seq<Step>, b: nat, i: nat, c: nat, entry: CachedImage) {
    && b < i && HitAt(ss, ts, i, c, entry)
    && forall j :: b < j < i ==> !HitsDigestAt(ss, ts, j, c, entry.image.digest)
  }

  /** Scrape c is under way since step b. */
  ghost predicate Underway(cfg: Config, ss: seq<State>, ts: seq<Step>, b: nat, e: nat, c: nat) {
    && Run(cfg, ss, ts) && b < e < |ss|
    && ts[b] == ScrapeBegin(c) && c in ss[e].collectors
    && forall i :: b < i < e ==> ts[i] != ScrapeBegin(c)
  }

  ghost predicate ReadBetween(ss: seq<State>, ts: seq<Step>, b: nat, e: nat, c: nat, k: nat, r: Ref) {
    exists i :: b < i < e && ReadAt(ss, ts, i, c, k, r)
  }

  lemma ReadCount(cfg: Config, ss: seq<State>, ts: seq<Step>, e: nat, c: nat)
    requires Run(cfg, ss, ts) && e < |ss| && c in ss[e].collectors
    ensures ss[e].collectors[c].next <= |ss[e].collectors[c].refs|
  {
    Reachable(cfg, ss, ts, e);
    assert CollectorInv(cfg, ss[e], ss[e].collectors[c]);
  }

  /** The reads so far have gone through the first references. */
  lemma {:induction false} ReadsSoFar(
      cfg: Config, ss: seq<State>, ts: seq<Step>, b: nat, e: nat, c: nat, k: nat)
    requires Underway(cfg, ss, ts, b, e, c) && k < ss[e].collectors[c].next
    ensures k < |ss[e].collectors[c].refs| && ReadBetween(ss, ts, b, e, c, k, ss[e].collectors[c].refs[k])
  {
    var m := e - 1;
    assert Stepped(cfg, ss[m], ts[m], ss[e]);
    ReadCount(cfg, ss, ts, e, c);
    if ts[m] == ScrapeRead(c) && k == ss[m].collectors[c].next {
      assert ReadAt(ss, ts, m, c, k, ss[e].collectors[c].refs[k]);
    } else {
      ReadsSoFar(cfg, ss, ts, b, m, c, k);
    }
  }

  /** A read is behind the scrape from the next step on. */
  lemma {:induction false} ReadsAdvance(
      cfg: Config, ss: seq<State>, ts: seq<Step>, b: nat, i: nat, e: nat, c: nat, k: nat, r: Ref)
    requires Underway(cfg, ss, ts, b, e, c) && b < i < e && ReadAt(ss, ts, i, c, k, r)
    ensures k < ss[e].collectors[c].next
  {
    var m := e - 1;
    assert Stepped(cfg, ss[m], ts[m], ss[e]);
    if i < m {
      ReadsAdvance(cfg, ss, ts, b, i, m, c, k, r);
    }
  }

  /** By its eviction, a scrape has read every reference it found exactly once. */
  lemma EveryReferenceReadOnce(
      cfg: Config, ss: seq<State>, ts: seq<Step>, b: nat, e: nat, c: nat, k: nat) returns (i: nat)
    requires Scrape(cfg, ss, ts, b, e, c) && c in ss[e].collectors && k < |ss[e].collectors[c].refs|
    ensures b < i < e && ReadAt(ss, ts, i, c, k, ss[e].collectors[c].refs[k])
    ensures forall j, r :: b < j < e && ReadAt(ss, ts, j, c, k, r) ==> j == i
  {
    assert Enabled(cfg, ss[e], ts[e]);
    ReadsSoFar(cfg, ss, ts, b, e, c, k);
    i :| b < i < e && ReadAt(ss, ts, i, c, k, ss[e].collectors[c].refs[k]);
    forall j, r | b < j < e && ReadAt(ss, ts, j, c, k, r)
      ensures j == i
    {
      if i < j {
        ReadsAdvance(cfg, ss, ts, b, i, j, c, k, ss[e].collectors[c].refs[k]);
      } else if j < i {
        ReadsAdvance(cfg, ss, ts, b, j, i, c, k, r);
      }
    }
  }

  /** A read hits at most one entry. */
  lemma HitUnique(ss: seq<State>, ts: seq<Step>, i: nat, c: nat, a: CachedImage, b: CachedImage)
    requires HitAt(ss, ts, i, c, a) && HitAt(ss, ts, i, c, b)
    ensures a == b
  {
  }

  /** What one read does to the times a scrape remembers. */
  lemma ReadRecords(cfg: Config, ss: seq<State>, ts: seq<Step>, m: nat, c: nat)
    requires Run(cfg, ss, ts) && m < |ts| && ts[m] == ScrapeRead(c)
    ensures c in ss[m].collectors && c in ss[m + 1].collectors
    ensures var seen, seen' := ss[m].collectors[c].firstSeen, ss[m + 1].collectors[c].firstSeen;
            && (forall digest :: digest in seen ==> digest in seen' && seen'[digest] == seen[digest])
            && (forall digest :: digest in seen' <==> digest in seen || HitsDigestAt(ss, ts, m, c, digest))
            && (forall entry :: HitAt(ss, ts, m, c, entry) && entry.image.digest !in seen ==>
                seen'[entry.image.digest] == entry.time)
  {
    assert Stepped(cfg, ss[m], ts[m], ss[m + 1]);
    var x := ss[m].collectors[c];
    var r := x.refs[x.next];
    assert ReadAt(ss, ts, m, c, x.next, r);
    if Lookup(ss[m].cache, r).Some? {
      assert HitAt(ss, ts, m, c, Lookup(ss[m].cache, r).value);
    }
  }

  /** A step other than a read of scrape c leaves what it remembers. */
  lemma OthersRecordNothing(cfg: Config, ss: seq<State>, ts: seq<Step>, m: nat, c: nat)
    requires Run(cfg, ss, ts) && m < |ts| && ts[m] != ScrapeRead(c) && ts[m] != ScrapeBegin(c)
    requires c in ss[m + 1].collectors
    ensures c in ss[m].collectors && ss[m + 1].collectors[c].firstSeen == ss[m].collectors[c].firstSeen
    ensures forall digest :: !HitsDigestAt(ss, ts, m, c, digest)
  {
    assert Stepped(cfg, ss[m], ts[m], ss[m + 1]);
  }

  /** A scrape remembers exactly the digests its reads hit, each with the time seen by the first of those reads. */
  lemma {:induction false} FirstSeenIs(
      cfg: Config, ss: seq<State>, ts: seq<Step>, b: nat, e: nat, c: nat, digest: string)
    requires Underway(cfg, ss, ts, b, e, c)
    ensures var seen := ss[e].collectors[c].firstSeen;
            && (digest in seen <==> exists i :: b < i < e && HitsDigestAt(ss, ts, i, c, digest))
            && (digest in seen ==> exists i: nat, entry :: i < e && FirstHitAt(ss, ts, b, i, c, entry) &&
                                     entry.image.digest == digest && entry.time == seen[digest])
  {
    var m := e - 1;
    assert Stepped(cfg, ss[m], ts[m], ss[e]);
    if b < m {
      if ts[m] == ScrapeRead(c) {
        ReadRecords(cfg, ss, ts, m, c);
        FirstSeenIs(cfg, ss, ts, b, m, c, digest);
        if digest !in ss[m].collectors[c].firstSeen && HitsDigestAt(ss, ts, m, c, digest) {
          var entry :| HitAt(ss, ts, m, c, entry) && entry.image.digest == digest;
          assert FirstHitAt(ss, ts, b, m, c, entry);
        }
      } else {
        OthersRecordNothing(cfg, ss, ts, m, c);
        FirstSeenIs(cfg, ss, ts, b, m, c, digest);
      }
    }
  }

  lemma FirstHitsAgree(
      cfg: Config, ss: seq<State>, ts: seq<Step>, b: nat, i: nat, j: nat, c: nat, x: CachedImage, y: CachedImage)
    requires FirstHitAt(ss, ts, b, i, c, x) && FirstHitAt(ss, ts, b, j, c, y) && x.image.digest == y.image.digest
    ensures i == j && x == y
  {
    assert HitsDigestAt(ss, ts, i, c, x.image.digest) && HitsDigestAt(ss, ts, j, c, x.image.digest);
    if i == j {
      HitUnique(ss, ts, i, c, x, y);
    }
  }

  /** The oldest entry a scrape has seen, in terms of its reads alone: zero iff
      none of them hit, and otherwise the least time at which a digest was first hit. */
  lemma OldestIsLeastFirstHit(cfg: Config, ss: seq<State>, ts: seq<Step>, b: nat, e: nat, c: nat)
    requires Underway(cfg, ss, ts, b, e, c)
    ensures var oldest := ss[e].collectors[c].oldest;
            && (oldest == 0 <==> forall i, digest :: b < i < e ==> !HitsDigestAt(ss, ts, i, c, digest))
            && (oldest != 0 ==>
                exists i: nat, entry :: i < e && FirstHitAt(ss, ts, b, i, c, entry) && entry.time == oldest)
            && (forall i: nat, entry :: i < e && FirstHitAt(ss, ts, b, i, c, entry) ==> 0 < oldest <= entry.time)
  {
    Reachable(cfg, ss, ts, e);
    var x := ss[e].collectors[c];
    assert OldestInv(x);
    forall i, digest | b < i < e && HitsDigestAt(ss, ts, i, c, digest)
      ensures digest in x.firstSeen
    {
      FirstSeenIs(cfg, ss, ts, b, e, c, digest);
    }
    if digest :| digest in x.firstSeen && x.firstSeen[digest] == x.oldest {
      FirstSeenIs(cfg, ss, ts, b, e, c, digest);
    }
    forall i: nat, entry | i < e && FirstHitAt(ss, ts, b, i, c, entry)
      ensures 0 < x.oldest <= entry.time
    {
      var digest := entry.image.digest;
      assert HitsDigestAt(ss, ts, i, c, digest);
      FirstSeenIs(cfg, ss, ts, b, e, c, digest);
      var j: nat, other :| j < e && FirstHitAt(ss, ts, b, j, c, other) &&
        other.image.digest == digest && other.time == x.firstSeen[digest];
      FirstHitsAgree(cfg, ss, ts, b, i, j, c, entry, other);
    }
  }

  /** A scrape that gave up at a failed list is over: without beginning again it evicts nothing. */
  lemma {:induction false} AbortedNeverEvicts(cfg: Config, ss: seq<State>, ts: seq<Step>, a: nat, e: nat, c: nat)
    requires Run(cfg, ss, ts) && a < e < |ss| && ts[a] == ScrapeAbort(c)
    requires forall i :: a < i < e ==> ts[i] != ScrapeBegin(c)
    ensures c !in ss[e].collectors && (e < |ts| ==> ts[e] != ScrapeEvict(c))
  {
    assert Stepped(cfg, ss[e - 1], ts[e - 1], ss[e]);
    if a < e - 1 {
      AbortedNeverEvicts(cfg, ss, ts, a, e - 1, c);
    }
    assert e < |ts| ==> Enabled(cfg, ss[e], ts[e]);
  }

  // ---- The oldest-entry metric -------------------------------------------------

  /** At every moment of a scrape, the oldest entry it will report is the least
      first-seen time of the digests it has hit, zero iff none has, and a lower
      bound on the current time of each of those still cached. */
  lemma OldestEntryIsLowerBound(cfg: Config, ss: seq<State>, ts: seq<Step>, i: nat, c: nat)
    requires Run(cfg, ss, ts) && i < |ss| && c in ss[i].collectors
    ensures var x := ss[i].collectors[c];
            && (x.oldest == 0 <==> x.firstSeen == map[])
            && (x.oldest != 0 ==> x.oldest in x.firstSeen.Values)
            && (forall digest :: digest in x.firstSeen ==> x.oldest <= x.firstSeen[digest])
            && (forall digest :: digest in x.firstSeen && digest in ss[i].cache.imageMap ==>
                x.oldest <= ss[i].cache.imageMap[digest].time)
  {
    Reachable(cfg, ss, ts, i);
    assert CollectorInv(cfg, ss[i], ss[i].collectors[c]) && OldestInv(ss[i].collectors[c]);
  }
}
