/** Invariants of every reachable state of the protocol. */
module ProtocolInvariants {
  import opened Options
  import opened References
  import opened ImageCache
  import opened CacheLaws
  import opened Protocol

  /** The cache is coherent, holds no empty digest, and nothing in it is from the future. */
  ghost predicate CacheInv(s: State) {
    && s.clock > 0
    && Coherent(s.cache)
    && "" !in s.cache.imageMap
    && forall digest :: digest in s.cache.imageMap ==> 0 < s.cache.imageMap[digest].time <= s.clock
  }

  /** A scrape's epoch is past, and its first-seen times are lower bounds of
      the current times of the digests still cached. */
  ghost predicate CollectorInv(cfg: Config, s: State, c: Collector) {
    && c.epoch <= s.clock
    && c.listed <= cfg.kinds
    && c.next <= |c.refs|
    && (forall digest :: digest in c.firstSeen ==> 0 < c.firstSeen[digest] <= s.clock)
    && (forall digest :: digest in c.firstSeen && digest in s.cache.imageMap ==>
        c.firstSeen[digest] <= s.cache.imageMap[digest].time)
  }

  /** oldest is the least first-seen time, and 0 exactly when nothing has hit. */
  ghost predicate OldestInv(c: Collector) {
    && (c.oldest == 0 <==> c.firstSeen == map[])
    && (c.oldest != 0 ==> exists digest :: digest in c.firstSeen && c.firstSeen[digest] == c.oldest)
    && (forall digest :: digest in c.firstSeen ==> 0 < c.oldest <= c.firstSeen[digest])
  }

  /** The group names exactly the running flights, each under its own reference. */
  ghost predicate FlightInv(s: State) {
    && (forall key :: key in s.group ==>
        && s.group[key] in s.flights
        && Running(s.flights[s.group[key]])
        && s.flights[s.group[key]].ref.String() == key)
    && (forall f :: f in s.flights && Running(s.flights[f]) ==>
        && s.flights[f].ref.String() in s.group
        && s.group[s.flights[f].ref.String()] == f)
    && (forall f :: f in s.flights && (s.flights[f].phase.Fetched? || s.flights[f].phase.Landed?) ==>
        Answers(s.flights[f].phase.image, s.flights[f].ref))
  }

  ghost predicate CallInv(cfg: Config, s: State, call: Call) {
    match call.phase
    case Begun => true
    case LookedUp(_) => true
    case Missed(seen) => seen.None? || cfg.refreshExpired
    case Waiting(f) => f in s.flights && Running(s.flights[f]) && s.flights[f].ref == call.ref
    case Returned(FromCache(entry, at)) => at < entry.time + cfg.cacheDuration
    case Returned(FromFetch(f, image)) =>
      f in s.flights && s.flights[f].ref == call.ref && s.flights[f].phase == Finished(Some(image))
    case Returned(FetchError(f)) =>
      f in s.flights && s.flights[f].ref == call.ref && s.flights[f].phase == Finished(None)
    case Returned(ExpiredError(entry, at)) => !cfg.refreshExpired && at >= entry.time + cfg.cacheDuration
  }

  ghost predicate Inv(cfg: Config, s: State) {
    && |s.live| == cfg.kinds
    && CacheInv(s)
    && (forall c :: c in s.collectors ==> CollectorInv(cfg, s, s.collectors[c]) && OldestInv(s.collectors[c]))
    && FlightInv(s)
    && (forall id :: id in s.calls ==> CallInv(cfg, s, s.calls[id]))
  }

  /** Time only passes: a digest's time never decreases while it stays cached,
      and a digest that newly appears carries a current time. */
  ghost predicate Aged(s: State, s': State) {
    && s.clock <= s'.clock
    && forall digest :: digest in s'.cache.imageMap ==>
        if digest in s.cache.imageMap
        then s.cache.imageMap[digest].time <= s'.cache.imageMap[digest].time
        else s.clock <= s'.cache.imageMap[digest].time
  }

  lemma CacheInvPreserved(cfg: Config, s: State, step: Step, s': State)
    requires CacheInv(s) && FlightInv(s) && Stepped(cfg, s, step, s')
    ensures CacheInv(s') && Aged(s, s')
  {
    match step
    case ScrapeEvict(c) =>
      EvictedStaysCoherent(s.cache, Keys(s.collectors[c].refs), s.collectors[c].epoch);
    case FlightPut(f) =>
      StoredStaysCoherent(s.cache, s.flights[f].ref, s.flights[f].phase.image, s.clock);
    case _ =>
  }

  lemma AfterReadKeepsInv(cfg: Config, s: State, c: Collector)
    requires CacheInv(s) && CollectorInv(cfg, s, c) && OldestInv(c) && c.next < |c.refs|
    ensures CollectorInv(cfg, s, AfterRead(c, Lookup(s.cache, c.refs[c.next])))
    ensures OldestInv(AfterRead(c, Lookup(s.cache, c.refs[c.next])))
  {
    var hit := Lookup(s.cache, c.refs[c.next]);
    if hit.Some? && hit.value.image.digest !in c.firstSeen {
      var c' := AfterRead(c, hit);
      assert hit.value.image.digest in c'.firstSeen;
      if c'.oldest != hit.value.time {
        var digest :| digest in c.firstSeen && c.firstSeen[digest] == c.oldest;
        assert digest in c'.firstSeen;
      }
    }
  }

  lemma CollectorAged(cfg: Config, s: State, s': State, c: Collector)
    requires CollectorInv(cfg, s, c) && Aged(s, s')
    ensures CollectorInv(cfg, s', c)
  {
  }

  lemma CollectorsPreserved(cfg: Config, s: State, step: Step, s': State)
    requires Inv(cfg, s) && Stepped(cfg, s, step, s')
    ensures forall c :: c in s'.collectors ==> CollectorInv(cfg, s', s'.collectors[c]) && OldestInv(s'.collectors[c])
  {
    CacheInvPreserved(cfg, s, step, s');
    forall c | c in s'.collectors
      ensures CollectorInv(cfg, s', s'.collectors[c]) && OldestInv(s'.collectors[c])
    {
      if c in s.collectors && s'.collectors[c] == s.collectors[c] {
        CollectorAged(cfg, s, s', s.collectors[c]);
      } else if step.ScrapeRead? {
        AfterReadKeepsInv(cfg, s, s.collectors[c]);
      }
    }
  }

  lemma FlightInvAfterJoin(cfg: Config, s: State, id: nat, newFlight: nat, s': State)
    requires FlightInv(s) && Stepped(cfg, s, CallJoin(id, newFlight), s')
    ensures FlightInv(s')
  {
  }

  lemma FlightInvAfterFinish(cfg: Config, s: State, f: nat, s': State)
    requires FlightInv(s) && Stepped(cfg, s, FlightFinish(f), s')
    ensures FlightInv(s')
  {
  }

  lemma FlightInvAfterProgress(cfg: Config, s: State, step: Step, s': State)
    requires FlightInv(s) && Stepped(cfg, s, step, s') && (step.FlightFetch? || step.FlightPut?)
    ensures FlightInv(s')
  {
  }

  lemma FlightsPreserved(cfg: Config, s: State, step: Step, s': State)
    requires FlightInv(s) && Stepped(cfg, s, step, s')
    ensures FlightInv(s')
  {
    match step
    case CallJoin(id, newFlight) => FlightInvAfterJoin(cfg, s, id, newFlight, s');
    case FlightFinish(f) => FlightInvAfterFinish(cfg, s, f, s');
    case FlightFetch(_, _) => FlightInvAfterProgress(cfg, s, step, s');
    case FlightPut(_) => FlightInvAfterProgress(cfg, s, step, s');
    case _ => assert s'.flights == s.flights && s'.group == s.group;
  }

  /** Flights only move forward: a finished flight never changes, and a flight finishes only by its own step. */
  ghost predicate Advanced(s: State, step: Step, s': State, f: nat)
    requires f in s.flights
  {
    && f in s'.flights
    && s'.flights[f].ref == s.flights[f].ref
    && (s.flights[f].phase.Finished? ==> s'.flights[f] == s.flights[f])
    && (Running(s.flights[f]) && !Running(s'.flights[f]) ==> step == FlightFinish(f))
  }

  lemma FlightAdvances(cfg: Config, s: State, step: Step, s': State, f: nat)
    requires Stepped(cfg, s, step, s') && f in s.flights
    ensures Advanced(s, step, s', f)
  {
    match step
    case CallJoin(_, _) =>
    case FlightFetch(_, _) =>
    case FlightPut(_) =>
    case FlightFinish(_) =>
    case _ => assert s'.flights == s.flights;
  }

  lemma CallJoinKeepsCalls(cfg: Config, s: State, id: nat, newFlight: nat, s': State)
    requires Inv(cfg, s) && Stepped(cfg, s, CallJoin(id, newFlight), s')
    ensures forall i :: i in s'.calls ==> CallInv(cfg, s', s'.calls[i])
  {
    var key := s.calls[id].ref.String();
    if key in s.group {
      StringInjective(s.flights[s.group[key]].ref, s.calls[id].ref);
    }
  }

  predicate FetchedBy(phase: CallPhase, f: nat) {
    && phase.Returned?
    && (phase.outcome.FromFetch? || phase.outcome.FetchError?)
    && phase.outcome.flight == f
  }

  /** A call that does not move stays justified, unless the fetch it waits on finishes. */
  lemma CallInvKept(cfg: Config, s: State, step: Step, s': State, call: Call)
    requires FlightInv(s) && Stepped(cfg, s, step, s') && CallInv(cfg, s, call)
    requires call.phase.Waiting? ==> step != FlightFinish(call.phase.flight)
    ensures CallInv(cfg, s', call)
  {
    if f :| f in s.flights && (call.phase == Waiting(f) || FetchedBy(call.phase, f)) {
      FlightAdvances(cfg, s, step, s', f);
    }
  }

  lemma CallInvDelivered(cfg: Config, s: State, f: nat, s': State, call: Call)
    requires FlightInv(s) && Stepped(cfg, s, FlightFinish(f), s') && CallInv(cfg, s, call) && call.phase == Waiting(f)
    ensures CallInv(cfg, s', call.(phase := Returned(FlightOutcome(f, FlightResult(s.flights[f])))))
  {
  }

  lemma CallsPreserved(cfg: Config, s: State, step: Step, s': State)
    requires Inv(cfg, s) && Stepped(cfg, s, step, s')
    ensures forall id :: id in s'.calls ==> CallInv(cfg, s', s'.calls[id])
  {
    if step.CallJoin? {
      CallJoinKeepsCalls(cfg, s, step.id, step.newFlight, s');
    } else {
      forall id | id in s'.calls
        ensures CallInv(cfg, s', s'.calls[id])
      {
        if id in s.calls && s'.calls[id] == s.calls[id] {
          assert CallInv(cfg, s, s.calls[id]);
          CallInvKept(cfg, s, step, s', s.calls[id]);
        } else if step.FlightFinish? {
          assert CallInv(cfg, s, s.calls[id]);
          CallInvDelivered(cfg, s, step.f, s', s.calls[id]);
        }
      }
    }
  }

  lemma InvPreserved(cfg: Config, s: State, step: Step, s': State)
    requires Inv(cfg, s) && Stepped(cfg, s, step, s')
    ensures Inv(cfg, s')
  {
    CacheInvPreserved(cfg, s, step, s');
    CollectorsPreserved(cfg, s, step, s');
    FlightsPreserved(cfg, s, step, s');
    CallsPreserved(cfg, s, step, s');
  }

  lemma {:induction false} Reachable(cfg: Config, ss: seq<State>, ts: seq<Step>, i: nat)
    requires Run(cfg, ss, ts) && i < |ss|
    ensures Inv(cfg, ss[i])
  {
    if i > 0 {
      Reachable(cfg, ss, ts, i - 1);
      assert Stepped(cfg, ss[i - 1], ts[i - 1], ss[i]);
      InvPreserved(cfg, ss[i - 1], ts[i - 1], ss[i]);
    }
  }
}
