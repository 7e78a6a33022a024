/** When a live reference is fetched again, and what becomes of the calls a
    requeue makes on it. */
module FetchDiscipline {
  import opened Options
  import opened References
  import opened ImageCache
  import opened Protocol
  import opened ProtocolInvariants
  import opened ProtocolSafety

  ghost predicate Names(s: State, r: Ref, k: nat) {
    k < |s.live| && r in s.live[k]
  }

  /** Step i stored an image for r. */
  ghost predicate PutOf(ss: seq<State>, ts: seq<Step>, i: nat, r: Ref) {
    && i < |ts| && i < |ss|
    && ts[i].FlightPut? && ts[i].f in ss[i].flights
    && ss[i].flights[ts[i].f].ref == r
  }

  /** Step p stored an image for r, and kind k has named r in every state since, up to q. */
  ghost predicate NamedSincePut(cfg: Config, ss: seq<State>, ts: seq<Step>, p: nat, q: nat, r: Ref, k: nat) {
    && Run(cfg, ss, ts) && p < q < |ss| && k < cfg.kinds
    && PutOf(ss, ts, p, r)
    && forall i :: p < i < q ==> Names(ss[i], r, k)
  }

  lemma GuardedSincePut(cfg: Config, ss: seq<State>, ts: seq<Step>, p: nat, q: nat, r: Ref, k: nat)
    requires NamedSincePut(cfg, ss, ts, p, q, r, k)
    ensures Inv(cfg, ss[q]) && Guarded(ss[q], r, k) && Lookup(ss[q].cache, r).Some?
  {
    Reachable(cfg, ss, ts, p);
    assert Stepped(cfg, ss[p], ts[p], ss[p + 1]);
    PutGuards(cfg, ss[p], ts[p].f, ss[p + 1], k);
    assert forall i :: p < i < q ==> Names(ss[i], r, k);
    GuardedThroughout(cfg, ss, ts, p + 1, q, r, k);
    Reachable(cfg, ss, ts, q);
    GuardedHits(cfg, ss[q], r, k);
  }

  // ---- Who fetches again -------------------------------------------------------

  /** As written, a call that goes on to fetch a reference named ever since it
      was put saw its miss before that put. */
  lemma JoinerMissedBeforePut(
      cfg: Config, ss: seq<State>, ts: seq<Step>, p: nat, i: nat, id: nat, newFlight: nat, r: Ref, k: nat)
    requires NamedSincePut(cfg, ss, ts, p, i, r, k) && !cfg.refreshExpired
    requires i < |ts| && ts[i] == CallJoin(id, newFlight) && id in ss[i].calls && ss[i].calls[id].ref == r
    ensures SawBefore(ss, ts, id, p, None)
  {
    FetchOnlyAfterMiss(cfg, ss, ts, i, id, newFlight);
    var j :| 0 <= j < i && LookupSaw(ss, ts, id, j, None);
    CallStays(cfg, ss, ts, j, i, id);
    if j > p {
      GuardedSincePut(cfg, ss, ts, p, j, r, k);
    }
  }

  /** Step i started flight g for call id on r. */
  ghost predicate StartedBy(ss: seq<State>, ts: seq<Step>, i: nat, id: nat, g: nat, r: Ref) {
    && i < |ts| && i < |ss|
    && ts[i] == CallJoin(id, g) && g !in ss[i].flights
    && id in ss[i].calls && ss[i].calls[id].ref == r
  }

  lemma {:induction false} FlightHasStart(cfg: Config, ss: seq<State>, ts: seq<Step>, p: nat, q: nat, g: nat)
    requires Run(cfg, ss, ts) && p <= q < |ss| && g !in ss[p].flights && g in ss[q].flights
    ensures exists i, id :: p <= i < q && StartedBy(ss, ts, i, id, g, ss[q].flights[g].ref)
  {
    if p < q {
      assert Stepped(cfg, ss[q - 1], ts[q - 1], ss[q]);
      if g in ss[q - 1].flights {
        FlightAdvances(cfg, ss[q - 1], ts[q - 1], ss[q], g);
        FlightHasStart(cfg, ss, ts, p, q - 1, g);
      } else {
        assert StartedBy(ss, ts, q - 1, ts[q - 1].id, g, ss[q].flights[g].ref);
      }
    }
  }

  /** A flight that has stored its image or finished never stores again. */
  ghost predicate PastPut(f: Flight) {
    f.phase.Landed? || f.phase.Failed? || f.phase.Finished?
  }

  lemma {:induction false} PastPutStays(cfg: Config, ss: seq<State>, ts: seq<Step>, p: nat, q: nat, g: nat)
    requires Run(cfg, ss, ts) && p <= q < |ss| && g in ss[p].flights && PastPut(ss[p].flights[g])
    ensures g in ss[q].flights && PastPut(ss[q].flights[g])
  {
    if p < q {
      PastPutStays(cfg, ss, ts, p, q - 1, g);
      assert Stepped(cfg, ss[q - 1], ts[q - 1], ss[q]);
    }
  }

  lemma {:induction false} FlightStays(cfg: Config, ss: seq<State>, ts: seq<Step>, p: nat, q: nat, g: nat)
    requires Run(cfg, ss, ts) && p <= q < |ss| && g in ss[p].flights
    ensures g in ss[q].flights && ss[q].flights[g].ref == ss[p].flights[g].ref
  {
    if p < q {
      FlightStays(cfg, ss, ts, p, q - 1, g);
      assert Stepped(cfg, ss[q - 1], ts[q - 1], ss[q]);
      FlightAdvances(cfg, ss[q - 1], ts[q - 1], ss[q], g);
    }
  }

  /** A later put of the same reference is of a flight that had not started yet. */
  lemma LaterPutIsOfLaterFlight(cfg: Config, ss: seq<State>, ts: seq<Step>, p: nat, q: nat, r: Ref)
    requires Run(cfg, ss, ts) && p < q && PutOf(ss, ts, p, r) && PutOf(ss, ts, q, r)
    ensures ts[q].f !in ss[p + 1].flights
  {
    var f, g := ts[p].f, ts[q].f;
    assert Stepped(cfg, ss[p], ts[p], ss[p + 1]) && Enabled(cfg, ss[q], ts[q]);
    if g in ss[p + 1].flights {
      FlightStays(cfg, ss, ts, p + 1, q, g);
      if PastPut(ss[p + 1].flights[g]) {
        PastPutStays(cfg, ss, ts, p + 1, q, g);
      } else {
        AtMostOneFetch(cfg, ss, ts, p + 1, f, g);
      }
    }
  }

  /** As written, a reference named ever since it was put is put again only by
      a flight that started afterwards, for a call that missed before that put. */
  lemma LaterPutsComeFromEarlierMisses(
      cfg: Config, ss: seq<State>, ts: seq<Step>, p: nat, q: nat, r: Ref, k: nat)
    requires NamedSincePut(cfg, ss, ts, p, q, r, k) && PutOf(ss, ts, q, r) && !cfg.refreshExpired
    ensures exists i, id :: p < i < q && StartedBy(ss, ts, i, id, ts[q].f, r) && SawBefore(ss, ts, id, p, None)
  {
    LaterPutIsOfLaterFlight(cfg, ss, ts, p, q, r);
    FlightHasStart(cfg, ss, ts, p + 1, q, ts[q].f);
    var i, id :| p + 1 <= i < q && StartedBy(ss, ts, i, id, ts[q].f, r);
    JoinerMissedBeforePut(cfg, ss, ts, p, i, id, ts[q].f, r, k);
  }

  /** A call on r that has met neither a miss nor a fetch. */
  ghost predicate StaysOnCache(phase: CallPhase) {
    && !OnFetchPath(phase)
    && (phase.LookedUp? ==> phase.hit.Some?)
  }

  lemma {:induction false} LaterCallStaysOnCache(
      cfg: Config, ss: seq<State>, ts: seq<Step>, p: nat, q: nat, r: Ref, k: nat, id: nat)
    requires NamedSincePut(cfg, ss, ts, p, q, r, k) && !cfg.refreshExpired
    requires id !in ss[p].calls && id in ss[q].calls && ss[q].calls[id].ref == r
    ensures StaysOnCache(ss[q].calls[id].phase)
  {
    var i := q - 1;
    assert Stepped(cfg, ss[i], ts[i], ss[q]);
    if id in ss[i].calls {
      CallStays(cfg, ss, ts, i, q, id);
      LaterCallStaysOnCache(cfg, ss, ts, p, i, r, k, id);
      GuardedSincePut(cfg, ss, ts, p, i, r, k);
    }
  }

  /** Every call made after the put returns the cached entry or fails as expired. */
  lemma LaterCallsNeverFetch(
      cfg: Config, ss: seq<State>, ts: seq<Step>, p: nat, q: nat, r: Ref, k: nat, id: nat)
    requires NamedSincePut(cfg, ss, ts, p, q, r, k) && !cfg.refreshExpired
    requires id !in ss[p].calls && id in ss[q].calls && ss[q].calls[id].ref == r && ss[q].calls[id].phase.Returned?
    ensures ss[q].calls[id].phase.outcome.FromCache? || ss[q].calls[id].phase.outcome.ExpiredError?
  {
    LaterCallStaysOnCache(cfg, ss, ts, p, q, r, k, id);
  }

  // ---- When it can be stored again at all ----------------------------------------

  /** A call on r that has missed and not yet joined a fetch, or a fetch of r that has not yet stored. */
  ghost predicate Pending(s: State, r: Ref) {
    || (exists id :: id in s.calls && MissOutstanding(s.calls[id], r))
    || (exists f :: f in s.flights && FetchOutstanding(s.flights[f], r))
  }

  predicate MissOutstanding(call: Call, r: Ref) {
    call.ref == r && (call.phase.Missed? || call.phase == LookedUp(None))
  }

  predicate FetchOutstanding(f: Flight, r: Ref) {
    f.ref == r && (f.phase.Fetching? || f.phase.Fetched?)
  }

  lemma LookupStaysQuiet(cfg: Config, s: State, id: nat, s': State, r: Ref, k: nat)
    requires Inv(cfg, s) && Guarded(s, r, k) && Stepped(cfg, s, CallLookup(id), s')
    ensures !MissOutstanding(s'.calls[id], r)
  {
    GuardedHits(cfg, s, r, k);
  }

  /** A step other than a lookup makes no miss, and a check passes on only the miss it was given. */
  lemma OtherStepsStayQuiet(cfg: Config, s: State, step: Step, s': State, r: Ref, id: nat)
    requires Stepped(cfg, s, step, s') && step != CallLookup(id) && !cfg.refreshExpired
    requires id in s'.calls && (id in s.calls ==> !MissOutstanding(s.calls[id], r))
    ensures !MissOutstanding(s'.calls[id], r)
  {
  }

  lemma CallsStayQuiet(cfg: Config, s: State, step: Step, s': State, r: Ref, k: nat, id: nat)
    requires Inv(cfg, s) && Guarded(s, r, k) && !Pending(s, r) && Stepped(cfg, s, step, s') && !cfg.refreshExpired
    requires id in s'.calls
    ensures !MissOutstanding(s'.calls[id], r)
  {
    if step == CallLookup(id) {
      LookupStaysQuiet(cfg, s, id, s', r, k);
    } else {
      OtherStepsStayQuiet(cfg, s, step, s', r, id);
    }
  }

  lemma FlightsStayQuiet(cfg: Config, s: State, step: Step, s': State, r: Ref, f: nat)
    requires !Pending(s, r) && Stepped(cfg, s, step, s') && f in s'.flights
    ensures !FetchOutstanding(s'.flights[f], r)
  {
    assert f in s.flights ==> !FetchOutstanding(s.flights[f], r);
    if f !in s.flights {
      assert !MissOutstanding(s.calls[step.id], r);
    }
  }

  lemma QuietPreserved(cfg: Config, s: State, step: Step, s': State, r: Ref, k: nat)
    requires Inv(cfg, s) && Guarded(s, r, k) && !Pending(s, r) && Stepped(cfg, s, step, s') && !cfg.refreshExpired
    ensures !Pending(s', r)
  {
    forall id | id in s'.calls ensures !MissOutstanding(s'.calls[id], r) {
      CallsStayQuiet(cfg, s, step, s', r, k, id);
    }
    forall f | f in s'.flights ensures !FetchOutstanding(s'.flights[f], r) {
      FlightsStayQuiet(cfg, s, step, s', r, f);
    }
  }

  lemma QuietKeepsBinding(cfg: Config, s: State, step: Step, s': State, r: Ref, k: nat)
    requires Inv(cfg, s) && Guarded(s, r, k) && !Pending(s, r) && Stepped(cfg, s, step, s')
    ensures r.String() in s'.cache.digestMap
    ensures s'.cache.digestMap[r.String()] == s.cache.digestMap[r.String()]
  {
    if step.ScrapeEvict? {
      GuardedThroughEvict(cfg, s, step.c, s', r, k);
    } else if step.FlightPut? {
      assert !FetchOutstanding(s.flights[step.f], r);
      if s.flights[step.f].ref.String() == r.String() {
        StringInjective(s.flights[step.f].ref, r);
      }
    } else {
      assert s'.cache == s.cache;
    }
  }

  lemma QuietMeansNoPut(cfg: Config, ss: seq<State>, ts: seq<Step>, q: nat, r: Ref)
    requires Run(cfg, ss, ts) && q < |ss| && !Pending(ss[q], r)
    ensures !PutOf(ss, ts, q, r)
  {
    if PutOf(ss, ts, q, r) {
      assert Enabled(cfg, ss[q], ts[q]) && FetchOutstanding(ss[q].flights[ts[q].f], r);
    }
  }

  /** One step of a run after the put, while nothing is pending. */
  lemma QuietStep(cfg: Config, ss: seq<State>, ts: seq<Step>, p: nat, i: nat, r: Ref, k: nat)
    requires NamedSincePut(cfg, ss, ts, p, i + 1, r, k) && p < i && !Pending(ss[i], r) && !cfg.refreshExpired
    ensures !Pending(ss[i + 1], r)
    ensures r.String() in ss[i].cache.digestMap && r.String() in ss[i + 1].cache.digestMap
    ensures ss[i + 1].cache.digestMap[r.String()] == ss[i].cache.digestMap[r.String()]
  {
    assert Names(ss[i], r, k);
    GuardedSincePut(cfg, ss, ts, p, i, r, k);
    assert Stepped(cfg, ss[i], ts[i], ss[i + 1]);
    QuietPreserved(cfg, ss[i], ts[i], ss[i + 1], r, k);
    QuietKeepsBinding(cfg, ss[i], ts[i], ss[i + 1], r, k);
  }

  /** As written, once nothing is pending for a reference named ever since it
      was put, no continuation of the run stores it again while it is named,
      and it keeps its digest. */
  lemma {:induction false} LiveReferenceNeverResolvedAgain(
      cfg: Config, ss: seq<State>, ts: seq<Step>, p: nat, m: nat, q: nat, r: Ref, k: nat)
    requires p < m <= q && NamedSincePut(cfg, ss, ts, p, q, r, k) && !cfg.refreshExpired
    requires !Pending(ss[m], r)
    ensures !Pending(ss[q], r) && !PutOf(ss, ts, q, r)
    ensures r.String() in ss[m].cache.digestMap && r.String() in ss[q].cache.digestMap
    ensures ss[q].cache.digestMap[r.String()] == ss[m].cache.digestMap[r.String()]
  {
    if m < q {
      LiveReferenceNeverResolvedAgain(cfg, ss, ts, p, m, q - 1, r, k);
      QuietStep(cfg, ss, ts, p, q - 1, r, k);
    } else {
      GuardedSincePut(cfg, ss, ts, p, m, r, k);
    }
    QuietMeansNoPut(cfg, ss, ts, q, r);
  }

  /** A continuation of a run whose last step stores r, and in which kind k names r throughout. */
  ghost predicate PutAgain(
      cfg: Config, ss: seq<State>, ts: seq<Step>, r: Ref, k: nat, ss': seq<State>, ts': seq<Step>)
  {
    && Run(cfg, ss', ts') && ss <= ss' && ts < ts'
    && (forall i :: |ts| <= i < |ts'| ==> Names(ss'[i], r, k))
    && PutOf(ss', ts', |ts'| - 1, r)
  }

  /** A run about to be continued, whose last state names r. */
  ghost predicate Open(cfg: Config, ss: seq<State>, ts: seq<Step>, r: Ref, k: nat) {
    Run(cfg, ss, ts) && Names(ss[|ts|], r, k)
  }

  /** One more step that leaves the workloads alone. */
  lemma Continue(cfg: Config, ss: seq<State>, ts: seq<Step>, r: Ref, k: nat, step: Step)
    returns (ss': seq<State>, ts': seq<Step>)
    requires Open(cfg, ss, ts, r, k) && Enabled(cfg, ss[|ts|], step) && !step.ChangeWorkloads?
    ensures Open(cfg, ss', ts', r, k)
    ensures ss' == ss + [Apply(cfg, ss[|ts|], step)] && ts' == ts + [step]
  {
    ss', ts' := ss + [Apply(cfg, ss[|ts|], step)], ts + [step];
  }

  lemma PutAgainLater(
      cfg: Config, ss: seq<State>, ts: seq<Step>, s: State, step: Step, r: Ref, k: nat,
      ss': seq<State>, ts': seq<Step>)
    requires Open(cfg, ss, ts, r, k) && PutAgain(cfg, ss + [s], ts + [step], r, k, ss', ts')
    ensures PutAgain(cfg, ss, ts, r, k, ss', ts')
  {
    assert ss <= ss + [s] <= ss' && ts <= ts + [step] <= ts';
    assert ss'[|ts|] == ss[|ts|];
  }

  lemma PutFetched(cfg: Config, ss: seq<State>, ts: seq<Step>, r: Ref, k: nat, g: nat)
    returns (ss': seq<State>, ts': seq<Step>)
    requires Open(cfg, ss, ts, r, k)
    requires g in ss[|ts|].flights && ss[|ts|].flights[g].ref == r && ss[|ts|].flights[g].phase.Fetched?
    ensures PutAgain(cfg, ss, ts, r, k, ss', ts')
  {
    ss', ts' := Continue(cfg, ss, ts, r, k, FlightPut(g));
    assert ss'[|ts|] == ss[|ts|] && ts'[|ts|] == FlightPut(g);
  }

  /** Some image a registry may answer for r. */
  function SomeImage(r: Ref): (image: Image)
    ensures Answers(image, r)
  {
    Image(if r.Digest? then r.digest else "sha256:0", map[], map[], 0, 0)
  }

  lemma PutFetching(cfg: Config, ss: seq<State>, ts: seq<Step>, r: Ref, k: nat, g: nat)
    returns (ss': seq<State>, ts': seq<Step>)
    requires Open(cfg, ss, ts, r, k) && g in ss[|ts|].flights && FetchOutstanding(ss[|ts|].flights[g], r)
    ensures PutAgain(cfg, ss, ts, r, k, ss', ts')
  {
    if ss[|ts|].flights[g].phase.Fetched? {
      ss', ts' := PutFetched(cfg, ss, ts, r, k, g);
    } else {
      var step := FlightFetch(g, Some(SomeImage(r)));
      var ss1, ts1 := Continue(cfg, ss, ts, r, k, step);
      ss', ts' := PutFetched(cfg, ss1, ts1, r, k, g);
      PutAgainLater(cfg, ss, ts, Apply(cfg, ss[|ts|], step), step, r, k, ss', ts');
    }
  }

  lemma PutMissedAlone(cfg: Config, ss: seq<State>, ts: seq<Step>, r: Ref, k: nat, id: nat)
    returns (ss': seq<State>, ts': seq<Step>)
    requires Open(cfg, ss, ts, r, k) && r.String() !in ss[|ts|].group
    requires id in ss[|ts|].calls && ss[|ts|].calls[id].ref == r && ss[|ts|].calls[id].phase.Missed?
    ensures PutAgain(cfg, ss, ts, r, k, ss', ts')
  {
    var g := UnusedId(ss[|ts|].flights.Keys);
    var ss1, ts1 := Continue(cfg, ss, ts, r, k, CallJoin(id, g));
    ss', ts' := PutFetching(cfg, ss1, ts1, r, k, g);
    PutAgainLater(cfg, ss, ts, Apply(cfg, ss[|ts|], CallJoin(id, g)), CallJoin(id, g), r, k, ss', ts');
  }

  lemma PutMissed(cfg: Config, ss: seq<State>, ts: seq<Step>, r: Ref, k: nat, id: nat)
    returns (ss': seq<State>, ts': seq<Step>)
    requires Open(cfg, ss, ts, r, k)
    requires id in ss[|ts|].calls && ss[|ts|].calls[id].ref == r && ss[|ts|].calls[id].phase.Missed?
    ensures PutAgain(cfg, ss, ts, r, k, ss', ts')
  {
    var s := ss[|ts|];
    Reachable(cfg, ss, ts, |ts|);
    if r.String() !in s.group {
      ss', ts' := PutMissedAlone(cfg, ss, ts, r, k, id);
    } else {
      var g := s.group[r.String()];
      StringInjective(s.flights[g].ref, r);
      if FetchOutstanding(s.flights[g], r) {
        ss', ts' := PutFetching(cfg, ss, ts, r, k, g);
      } else {
        var ss1, ts1 := Continue(cfg, ss, ts, r, k, FlightFinish(g));
        ss', ts' := PutMissedAlone(cfg, ss1, ts1, r, k, id);
        PutAgainLater(cfg, ss, ts, Apply(cfg, s, FlightFinish(g)), FlightFinish(g), r, k, ss', ts');
      }
    }
  }

  lemma PutPending(cfg: Config, ss: seq<State>, ts: seq<Step>, r: Ref, k: nat)
    returns (ss': seq<State>, ts': seq<Step>)
    requires Open(cfg, ss, ts, r, k) && Pending(ss[|ts|], r)
    ensures PutAgain(cfg, ss, ts, r, k, ss', ts')
  {
    var s := ss[|ts|];
    if f :| f in s.flights && FetchOutstanding(s.flights[f], r) {
      ss', ts' := PutFetching(cfg, ss, ts, r, k, f);
    } else {
      var id :| id in s.calls && MissOutstanding(s.calls[id], r);
      if s.calls[id].phase.Missed? {
        ss', ts' := PutMissed(cfg, ss, ts, r, k, id);
      } else {
        var ss1, ts1 := Continue(cfg, ss, ts, r, k, CallCheck(id));
        ss', ts' := PutMissed(cfg, ss1, ts1, r, k, id);
        PutAgainLater(cfg, ss, ts, Apply(cfg, s, CallCheck(id)), CallCheck(id), r, k, ss', ts');
      }
    }
  }

  lemma ContinuationNamed(
      cfg: Config, ss: seq<State>, ts: seq<Step>, p: nat, r: Ref, k: nat, ss': seq<State>, ts': seq<Step>)
    requires NamedSincePut(cfg, ss, ts, p, |ts|, r, k) && PutAgain(cfg, ss, ts, r, k, ss', ts')
    ensures |ts| < |ts'| && NamedSincePut(cfg, ss', ts', p, |ts'| - 1, r, k) && ss'[|ts|] == ss[|ts|]
    ensures PutOf(ss', ts', |ts'| - 1, r)
  {
    forall i | p < i < |ts'| - 1
      ensures Names(ss'[i], r, k)
    {
      assert i < |ts| ==> Names(ss[i], r, k) && ss'[i] == ss[i];
    }
    assert ts'[p] == ts[p] && ss'[p] == ss[p];
  }

  lemma PutNeedsPending(
      cfg: Config, ss: seq<State>, ts: seq<Step>, p: nat, m: nat, q: nat, r: Ref, k: nat)
    requires p < m <= q && NamedSincePut(cfg, ss, ts, p, q, r, k) && !cfg.refreshExpired
    requires PutOf(ss, ts, q, r)
    ensures Pending(ss[m], r)
  {
    if !Pending(ss[m], r) {
      LiveReferenceNeverResolvedAgain(cfg, ss, ts, p, m, q, r, k);
    }
  }

  lemma PutAgainNeedsPending(
      cfg: Config, ss: seq<State>, ts: seq<Step>, p: nat, r: Ref, k: nat, ss': seq<State>, ts': seq<Step>)
    requires NamedSincePut(cfg, ss, ts, p, |ts|, r, k) && PutAgain(cfg, ss, ts, r, k, ss', ts')
    requires !cfg.refreshExpired
    ensures Pending(ss[|ts|], r)
  {
    ContinuationNamed(cfg, ss, ts, p, r, k, ss', ts');
    PutNeedsPending(cfg, ss', ts', p, |ts|, |ts'| - 1, r, k);
  }

  /** As written, a reference named ever since it was put can be stored again
      in some continuation of the run exactly when a miss from before the put
      has still to join a fetch, or a fetch it joined has still to store. An
      expired entry is no reason. */
  lemma StoredAgainIff(cfg: Config, ss: seq<State>, ts: seq<Step>, p: nat, r: Ref, k: nat)
    requires NamedSincePut(cfg, ss, ts, p, |ts|, r, k) && Names(ss[|ts|], r, k) && !cfg.refreshExpired
    ensures (exists ss', ts' :: PutAgain(cfg, ss, ts, r, k, ss', ts')) <==> Pending(ss[|ts|], r)
  {
    if Pending(ss[|ts|], r) {
      var ss', ts' := PutPending(cfg, ss, ts, r, k);
    }
    if ss', ts' :| PutAgain(cfg, ss, ts, r, k, ss', ts') {
      PutAgainNeedsPending(cfg, ss, ts, p, r, k, ss', ts');
    }
  }

  // ---- Requeue after expiry ----------------------------------------------------

  /** Step i stored an image with this digest. */
  ghost predicate StoredAt(ss: seq<State>, ts: seq<Step>, i: nat, digest: string) {
    && i < |ts| && i < |ss|
    && ts[i].FlightPut? && ts[i].f in ss[i].flights
    && ss[i].flights[ts[i].f].phase.Fetched?
    && ss[i].flights[ts[i].f].phase.image.digest == digest
  }

  lemma {:induction false} NewerEntryWasStored(
      cfg: Config, ss: seq<State>, ts: seq<Step>, p: nat, q: nat, digest: string)
    requires Run(cfg, ss, ts) && p <= q < |ss|
    requires digest in ss[q].cache.imageMap && ss[q].cache.imageMap[digest].time > ss[p].clock
    ensures exists i :: p <= i < q && StoredAt(ss, ts, i, digest)
  {
    Reachable(cfg, ss, ts, q);
    if p < q {
      var s, s' := ss[q - 1], ss[q];
      assert Stepped(cfg, s, ts[q - 1], s');
      if ts[q - 1].FlightPut? && s.flights[ts[q - 1].f].phase.image.digest == digest {
        assert StoredAt(ss, ts, q - 1, digest);
      } else {
        assert digest in s.cache.imageMap && s.cache.imageMap[digest] == s'.cache.imageMap[digest];
        NewerEntryWasStored(cfg, ss, ts, p, q - 1, digest);
      }
    }
  }

  /** When a requeue set at state p fires no earlier than one cache duration
      later, an entry still fresh was stored after p. */
  lemma FreshAtRequeueWasStoredSince(
      cfg: Config, ss: seq<State>, ts: seq<Step>, p: nat, q: nat, delay: int, r: Ref)
    requires Run(cfg, ss, ts) && p <= q < |ss|
    requires delay >= cfg.cacheDuration && ss[q].clock >= ss[p].clock + delay
    requires var hit := Lookup(ss[q].cache, r); hit.Some? && ss[q].clock < hit.value.time + cfg.cacheDuration
    ensures exists i :: p <= i < q && StoredAt(ss, ts, i, DigestFor(ss[q].cache, r))
  {
    NewerEntryWasStored(cfg, ss, ts, p, q, DigestFor(ss[q].cache, r));
  }

  /** The entry of a reference put at p and named ever since, when neither it
      nor its digest has been stored again: the very one stored at p. */
  lemma {:induction false} EntrySincePut(
      cfg: Config, ss: seq<State>, ts: seq<Step>, p: nat, q: nat, r: Ref, k: nat, image: Image)
    requires NamedSincePut(cfg, ss, ts, p, q, r, k) && ss[p].flights[ts[p].f].phase == Fetched(image)
    requires forall n :: p < n < q ==> !PutOf(ss, ts, n, r) && !StoredAt(ss, ts, n, image.digest)
    ensures r.String() in ss[q].cache.digestMap && ss[q].cache.digestMap[r.String()] == image.digest
    ensures Lookup(ss[q].cache, r) == Some(CachedImage(image, ss[p].clock))
  {
    var i := q - 1;
    var s, s' := ss[i], ss[q];
    assert Stepped(cfg, s, ts[i], s');
    GuardedSincePut(cfg, ss, ts, p, q, r, k);
    GuardedHits(cfg, s', r, k);
    if p < i {
      EntrySincePut(cfg, ss, ts, p, i, r, k, image);
      GuardedSincePut(cfg, ss, ts, p, i, r, k);
      GuardedHits(cfg, s, r, k);
      if ts[i].ScrapeEvict? {
        GuardedThroughEvict(cfg, s, ts[i].c, s', r, k);
      } else if ts[i].FlightPut? {
        if s.flights[ts[i].f].ref.String() == r.String() {
          StringInjective(s.flights[ts[i].f].ref, r);
        }
        assert !PutOf(ss, ts, i, r) && !StoredAt(ss, ts, i, image.digest);
      }
    }
  }

  /** The refresh a requeue is meant to trigger does not happen as written. A
      call made after the put of a reference named ever since, with neither the
      reference nor its digest stored again, is answered with the entry of that
      put while it is fresh and fails from one cache duration after the put on. */
  lemma RequeuedCallFails(
      cfg: Config, ss: seq<State>, ts: seq<Step>, p: nat, i: nat, q: nat, r: Ref, k: nat, id: nat, image: Image)
    requires NamedSincePut(cfg, ss, ts, p, i, r, k) && ss[p].flights[ts[p].f].phase == Fetched(image)
    requires forall n :: p < n < i ==> !PutOf(ss, ts, n, r) && !StoredAt(ss, ts, n, image.digest)
    requires id !in ss[p].calls && id in ss[i].calls && ss[i].calls[id].ref == r
    requires i < q < |ss| && ts[i] == CallCheck(id) && !cfg.refreshExpired
    requires id in ss[q].calls && ss[q].calls[id].phase.Returned?
    ensures ss[q].calls[id].phase.outcome ==
              var entry := CachedImage(image, ss[p].clock);
              if ss[i].clock >= ss[p].clock + cfg.cacheDuration
              then ExpiredError(entry, ss[i].clock) else FromCache(entry, ss[i].clock)
  {
    assert Stepped(cfg, ss[i], ts[i], ss[i + 1]);
    var hit := ss[i].calls[id].phase.hit;
    CallsRemember(cfg, ss, ts, i, id);
    var j :| 0 <= j < i && LookupSaw(ss, ts, id, j, hit);
    CallStays(cfg, ss, ts, j, i, id);
    if j <= p {
      CallStays(cfg, ss, ts, j, p, id);
    }
    EntrySincePut(cfg, ss, ts, p, j, r, k, image);
    ExpiredHit(cfg, ss, ts, i, q, id, hit.value);
  }
}
