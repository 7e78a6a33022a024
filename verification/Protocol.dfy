/** The protocol around the shared cache, as a state machine: any number of
    getImage calls, the fetches they share, and any number of overlapping
    scrapes, over a clock that never goes back and workloads that come and go.
    Each step is one atomic action of the program (one lock-protected cache
    operation, one list, one singleflight transition); no lock spans two steps. */
module Protocol {
  import opened Options
  import opened References
  import opened ImageCache

  /** kinds is the number of watched resource kinds, listed in order;
      refreshExpired selects the guard of getImage: false is the guard as
      written, true one under which an expired hit goes on to fetch. */
  datatype Config = Config(kinds: nat, cacheDuration: int, refreshExpired: bool)

  /** A scrape: its epoch, how many kinds it has listed, the references found
      by those lists in order, how many of them it has read, and the first-seen
      time of each digest it has hit. oldest is 0 until something hits. */
  datatype Collector = Collector(
    epoch: int, listed: nat, refs: seq<Ref>, next: nat, firstSeen: map<string, int>, oldest: int)

  /** A shared fetch: running until finished, its image stored before it finishes. */
  datatype Flight = Flight(ref: Ref, phase: FlightPhase)
  datatype FlightPhase =
    | Fetching
    | Fetched(image: Image)
    | Landed(image: Image)
    | Failed
    | Finished(result: Option<Image>)

  /** One call of getImage. */
  datatype Call = Call(ref: Ref, phase: CallPhase)
  datatype CallPhase =
    | Begun
    | LookedUp(hit: Option<CachedImage>)
    | Missed(seen: Option<CachedImage>)
    | Waiting(flight: nat)
    | Returned(outcome: Outcome)
  datatype Outcome =
    | FromCache(entry: CachedImage, checkedAt: int)
    | FromFetch(flight: nat, image: Image)
    | FetchError(flight: nat)
    | ExpiredError(expired: CachedImage, failedAt: int)

  datatype State = State(
    clock: int,
    cache: Cache,
    live: seq<set<Ref>>,
    collectors: map<nat, Collector>,
    calls: map<nat, Call>,
    flights: map<nat, Flight>,
    group: map<string, nat>)

  datatype Step =
    | Tick(now: int)
    | ChangeWorkloads(live: seq<set<Ref>>)
    | ScrapeBegin(c: nat)
    | ScrapeList(c: nat, items: seq<Ref>)
    | ScrapeAbort(c: nat)
    | ScrapeRead(c: nat)
    | ScrapeEvict(c: nat)
    | CallBegin(id: nat, ref: Ref)
    | CallLookup(id: nat)
    | CallCheck(id: nat)
    | CallJoin(id: nat, newFlight: nat)
    | FlightFetch(f: nat, result: Option<Image>)
    | FlightPut(f: nat)
    | FlightFinish(f: nat)

  ghost predicate Initial(cfg: Config, s: State) {
    && s.clock > 0
    && s.cache == EMPTY
    && |s.live| == cfg.kinds
    && s.collectors == map[] && s.calls == map[] && s.flights == map[] && s.group == map[]
  }

  /** What a registry may answer: a digest is never empty, and an image
      fetched by digest has that digest. */
  predicate Answers(image: Image, ref: Ref) {
    image.digest != "" && (ref.Digest? ==> image.digest == ref.digest)
  }

  predicate Running(f: Flight) {
    !f.phase.Finished?
  }

  ghost predicate Enabled(cfg: Config, s: State, step: Step) {
    match step
    case Tick(now) => now >= s.clock
    case ChangeWorkloads(live) => |live| == cfg.kinds
    case ScrapeBegin(c) => c !in s.collectors
    case ScrapeList(c, items) =>
      c in s.collectors && s.collectors[c].listed < cfg.kinds == |s.live| &&
      (set r | r in items) == s.live[s.collectors[c].listed]
    case ScrapeAbort(c) => c in s.collectors && s.collectors[c].listed < cfg.kinds
    case ScrapeRead(c) =>
      c in s.collectors && s.collectors[c].listed == cfg.kinds && s.collectors[c].next < |s.collectors[c].refs|
    case ScrapeEvict(c) =>
      c in s.collectors && s.collectors[c].listed == cfg.kinds && s.collectors[c].next == |s.collectors[c].refs|
    case CallBegin(id, _) => id !in s.calls
    case CallLookup(id) => id in s.calls && s.calls[id].phase.Begun?
    case CallCheck(id) => id in s.calls && s.calls[id].phase.LookedUp?
    case CallJoin(id, newFlight) => id in s.calls && s.calls[id].phase.Missed? && newFlight !in s.flights
    case FlightFetch(f, result) =>
      f in s.flights && s.flights[f].phase.Fetching? && (result.Some? ==> Answers(result.value, s.flights[f].ref))
    case FlightPut(f) => f in s.flights && s.flights[f].phase.Fetched?
    case FlightFinish(f) => f in s.flights && (s.flights[f].phase.Landed? || s.flights[f].phase.Failed?)
  }

  /** Reading one container: the first hit on a digest records its time. */
  function AfterRead(c: Collector, hit: Option<CachedImage>): Collector {
    if hit.None? || hit.value.image.digest in c.firstSeen then
      c.(next := c.next + 1)
    else
      c.(next := c.next + 1,
         firstSeen := c.firstSeen[hit.value.image.digest := hit.value.time],
         oldest := if c.oldest == 0 || hit.value.time < c.oldest then hit.value.time else c.oldest)
  }

  /** The guard of getImage after its lookup. As written, only a miss goes on
      to fetch; a hit that is no longer fresh is returned as an error. */
  function AfterCheck(cfg: Config, now: int, hit: Option<CachedImage>): CallPhase {
    if hit.Some? && now < hit.value.time + cfg.cacheDuration then
      Returned(FromCache(hit.value, now))
    else if hit.Some? && !cfg.refreshExpired then
      Returned(ExpiredError(hit.value, now))
    else
      Missed(hit)
  }

  function FlightOutcome(f: nat, result: Option<Image>): Outcome {
    match result
    case Some(image) => FromFetch(f, image)
    case None => FetchError(f)
  }

  function FlightResult(f: Flight): Option<Image> {
    if f.phase.Landed? then Some(f.phase.image) else None
  }

  /** Every call waiting on a flight returns that flight's outcome. */
  function Deliver(calls: map<nat, Call>, f: nat, outcome: Outcome): map<nat, Call> {
    map id | id in calls ::
      if calls[id].phase == Waiting(f) then calls[id].(phase := Returned(outcome)) else calls[id]
  }

  function SetPhase(s: State, id: nat, phase: CallPhase): State
    requires id in s.calls
  {
    s.(calls := s.calls[id := s.calls[id].(phase := phase)])
  }

  ghost function Apply(cfg: Config, s: State, step: Step): State
    requires Enabled(cfg, s, step)
  {
    match step
    case Tick(now) => s.(clock := now)
    case ChangeWorkloads(live) => s.(live := live)
    case ScrapeBegin(c) => s.(collectors := s.collectors[c := Collector(s.clock, 0, [], 0, map[], 0)])
    case ScrapeList(c, items) =>
      var x := s.collectors[c];
      s.(collectors := s.collectors[c := x.(listed := x.listed + 1, refs := x.refs + items)])
    case ScrapeAbort(c) => s.(collectors := s.collectors - {c})
    case ScrapeRead(c) =>
      var x := s.collectors[c];
      s.(collectors := s.collectors[c := AfterRead(x, Lookup(s.cache, x.refs[x.next]))])
    case ScrapeEvict(c) =>
      var x := s.collectors[c];
      s.(cache := Evicted(s.cache, Keys(x.refs), x.epoch), collectors := s.collectors - {c})
    case CallBegin(id, ref) => s.(calls := s.calls[id := Call(ref, Begun)])
    case CallLookup(id) => SetPhase(s, id, LookedUp(Lookup(s.cache, s.calls[id].ref)))
    case CallCheck(id) => SetPhase(s, id, AfterCheck(cfg, s.clock, s.calls[id].phase.hit))
    case CallJoin(id, newFlight) =>
      var key := s.calls[id].ref.String();
      if key in s.group then
        SetPhase(s, id, Waiting(s.group[key]))
      else
        SetPhase(s, id, Waiting(newFlight)).(
          flights := s.flights[newFlight := Flight(s.calls[id].ref, Fetching)],
          group := s.group[key := newFlight])
    case FlightFetch(f, result) =>
      var phase := if result.Some? then Fetched(result.value) else Failed;
      s.(flights := s.flights[f := s.flights[f].(phase := phase)])
    case FlightPut(f) =>
      var x := s.flights[f];
      s.(cache := Stored(s.cache, x.ref, x.phase.image, s.clock),
         flights := s.flights[f := x.(phase := Landed(x.phase.image))])
    case FlightFinish(f) =>
      var x := s.flights[f];
      var result := FlightResult(x);
      s.(flights := s.flights[f := x.(phase := Finished(result))],
         group := s.group - {x.ref.String()},
         calls := Deliver(s.calls, f, FlightOutcome(f, result)))
  }

  /** A run: the states passed through and the steps between them. */
  ghost predicate Run(cfg: Config, ss: seq<State>, ts: seq<Step>) {
    && |ss| == |ts| + 1
    && Initial(cfg, ss[0])
    && forall i {:trigger ts[i]} :: 0 <= i < |ts| ==>
        Enabled(cfg, ss[i], ts[i]) && ss[i + 1] == Apply(cfg, ss[i], ts[i])
  }

  /** A single enabled step out of one state into another. */
  ghost predicate Stepped(cfg: Config, s: State, step: Step, s': State) {
    Enabled(cfg, s, step) && s' == Apply(cfg, s, step)
  }
}
