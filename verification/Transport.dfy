/** The layered registry transport (internal/clusterexporter/transport.go):
    rate limit, then per-host concurrency, then metrics, then the base
    transport. The classes are the two tables filled on demand; the state
    machine is any number of requests going through the layers at once. */
module Transport {
  import opened Options

  // ---- The per-host tables ---------------------------------------------------

  /** A counting semaphore with unit requests. */
  class Semaphore {
    const size: int
    var held: nat

    constructor (size: int)
      ensures this.size == size && held == 0
    {
      this.size := size;
      held := 0;
    }

    method Acquire()
      requires held < size
      modifies this
      ensures held == old(held) + 1
    {
      held := held + 1;
    }

    method Release()
      requires held > 0
      modifies this
      ensures held == old(held) - 1
    {
      held := held - 1;
    }
  }

  class ConcurrencyTransport {
    const max: int
    var sems: map<string, Semaphore>

    constructor (max: int)
      ensures this.max == max && sems == map[]
    {
      this.max := max;
      sems := map[];
    }

    /** The semaphore of a host: created once, with all permits free, and the same object ever after. */
    method SemFor(host: string) returns (sem: Semaphore)
      modifies this`sems
      ensures host in sems && sem == sems[host]
      ensures host in old(sems) ==> sems == old(sems)
      ensures host !in old(sems) ==> sems == old(sems)[host := sem] && fresh(sem) && sem.size == max && sem.held == 0
    {
      if host !in sems {
        var created := new Semaphore(max);
        sems := sems[host := created];
      }
      sem := sems[host];
    }

    /** A request on its own: turned away if its wait is cancelled or no permit
        is free, otherwise answered by the base transport. Every path out gives
        back what it took and leaves every other host's semaphore in place. */
    method RoundTrip(host: string, cancelled: bool, response: Option<string>)
      returns (answered: bool, r: Option<string>)
      modifies this`sems, sems.Values
      ensures host in sems && forall h :: h in old(sems) ==> h in sems && sems[h] == old(sems[h])
      ensures forall h :: h in sems ==> h in old(sems) || h == host
      ensures forall h :: h in old(sems) ==> sems[h].held == old(sems[h].held)
      ensures host !in old(sems) ==> sems[host].held == 0 && sems[host].size == max
      ensures answered <==> !cancelled && sems[host].held < sems[host].size
      ensures r == if answered then response else None
    {
      var sem := SemFor(host);
      if cancelled || sem.held >= sem.size {
        return false, None;
      }
      sem.Acquire();
      r := response;
      sem.Release();
      answered := true;
    }
  }

  class Limiter {
    const rps: real
    const burst: int

    constructor (rps: real, burst: int)
      ensures this.rps == rps && this.burst == burst
    {
      this.rps := rps;
      this.burst := burst;
    }
  }

  class RateLimitTransport {
    const rps: real
    const burst: int
    var limiters: map<string, Limiter>

    constructor (rps: real, burst: int)
      ensures this.rps == rps && this.burst == burst && limiters == map[]
    {
      this.rps := rps;
      this.burst := burst;
      limiters := map[];
    }

    method LimiterFor(host: string) returns (limiter: Limiter)
      modifies this`limiters
      ensures host in limiters && limiter == limiters[host]
      ensures host in old(limiters) ==> limiters == old(limiters)
      ensures host !in old(limiters) ==>
                && limiters == old(limiters)[host := limiter]
                && fresh(limiter) && limiter.rps == rps && limiter.burst == burst
    {
      if host !in limiters {
        var created := new Limiter(rps, burst);
        limiters := limiters[host := created];
      }
      limiter := limiters[host];
    }
  }

  // ---- Requests going through the layers ---------------------------------------

  /** Which layers newRegistryTransport is asked for. */
  datatype Config = Config(concurrency: int, rps: real, registered: bool)

  datatype Phase =
    | RateWait
    | PermitWait
    | InBase
    | Recorded(code: string)
    | Completed(code: string)
    | Cancelled

  datatype Request = Request(host: string, verb: string, phase: Phase)

  /** free holds the free permits of every host whose semaphore exists. */
  datatype State = State(
    limiters: set<string>,
    free: map<string, int>,
    requests: map<nat, Request>,
    counters: map<(string, string, string), nat>)

  const START := State({}, map[], map[], map[])

  datatype Step =
    | Arrive(id: nat, host: string, verb: string)
    | RatePass(id: nat)
    | Acquire(id: nat)
    | Cancel(id: nat)
    | Respond(id: nat, code: string)
    | Release(id: nat)

  predicate InPhase(s: State, id: nat, phase: Phase) {
    id in s.requests && s.requests[id].phase == phase
  }

  predicate Enabled(cfg: Config, s: State, step: Step) {
    match step
    case Arrive(id, _, _) => id !in s.requests
    case RatePass(id) => InPhase(s, id, RateWait)
    case Acquire(id) =>
      InPhase(s, id, PermitWait) && s.requests[id].host in s.free && s.free[s.requests[id].host] > 0
    case Cancel(id) => InPhase(s, id, RateWait) || InPhase(s, id, PermitWait)
    case Respond(id, _) => InPhase(s, id, InBase)
    case Release(id) => id in s.requests && s.requests[id].phase.Recorded?
  }

  function WithPhase(s: State, id: nat, phase: Phase): State
    requires id in s.requests
  {
    s.(requests := s.requests[id := s.requests[id].(phase := phase)])
  }

  /** Entering the concurrency layer looks up, or creates, the host's semaphore. */
  function EnterConcurrency(cfg: Config, s: State, id: nat): State
    requires id in s.requests
  {
    var host := s.requests[id].host;
    if cfg.concurrency > 0 then
      WithPhase(s, id, PermitWait).(free := if host in s.free then s.free else s.free[host := cfg.concurrency])
    else
      WithPhase(s, id, InBase)
  }

  function Counted(cfg: Config, s: State, key: (string, string, string)): State {
    if cfg.registered then
      s.(counters := s.counters[key := if key in s.counters then s.counters[key] + 1 else 1])
    else s
  }

  function Apply(cfg: Config, s: State, step: Step): State
    requires Enabled(cfg, s, step)
  {
    match step
    case Arrive(id, host, verb) =>
      var s1 := s.(requests := s.requests[id := Request(host, verb, RateWait)]);
      if cfg.rps > 0.0 then s1.(limiters := s.limiters + {host}) else EnterConcurrency(cfg, s1, id)
    case RatePass(id) => EnterConcurrency(cfg, s, id)
    case Acquire(id) =>
      var host := s.requests[id].host;
      WithPhase(s, id, InBase).(free := s.free[host := s.free[host] - 1])
    case Cancel(id) => WithPhase(s, id, Cancelled)
    case Respond(id, code) =>
      Counted(cfg, WithPhase(s, id, Recorded(code)), (s.requests[id].host, s.requests[id].verb, code))
    case Release(id) =>
      var host := s.requests[id].host;
      var s1 := WithPhase(s, id, Completed(s.requests[id].phase.code));
      if cfg.concurrency > 0 && host in s.free then s1.(free := s.free[host := s.free[host] + 1]) else s1
  }

  ghost predicate Run(cfg: Config, ss: seq<State>, ts: seq<Step>) {
    && |ss| == |ts| + 1
    && ss[0] == START
    && forall i {:trigger ts[i]} :: 0 <= i < |ts| ==>
        Enabled(cfg, ss[i], ts[i]) && ss[i + 1] == Apply(cfg, ss[i], ts[i])
  }

  // ---- Composition --------------------------------------------------------------

  datatype Layer = RateLimit(burst: int) | Concurrency(max: int) | Metrics | Base

  /** The phases in which a layer holds a request on its way in; metrics only record on the way out. */
  function StopsIn(layer: Layer): seq<Phase> {
    match layer
    case RateLimit(_) => [RateWait]
    case Concurrency(_) => [PermitWait]
    case Metrics => []
    case Base => [InBase]
  }

  function Stops(layers: seq<Layer>): seq<Phase> {
    if layers == [] then [] else StopsIn(layers[0]) + Stops(layers[1..])
  }

  /** The phases a request has been through by state i, in order. */
  function History(ss: seq<State>, i: nat, id: nat): seq<Phase>
    requires i < |ss|
  {
    var before := if i == 0 then [] else History(ss, i - 1, id);
    if id !in ss[i].requests then before
    else if before != [] && before[|before| - 1] == ss[i].requests[id].phase then before
    else before + [ss[i].requests[id].phase]
  }

  /** A way through the stops: part of them in order; all of them, then the
      answer and its release; or some of them, short of the last, and a cancelled wait. */
  ghost predicate Follows(stops: seq<Phase>, h: seq<Phase>) {
    || h <= stops
    || (exists code :: h == stops + [Recorded(code)] || h == stops + [Recorded(code), Completed(code)])
    || (exists n :: 0 < n < |stops| && h == stops[..n] + [Cancelled])
  }

  /** Every request of every run goes through the stops in order. */
  ghost predicate Governs(cfg: Config, stops: seq<Phase>) {
    forall ss, ts, i, id :: Run(cfg, ss, ts) && 0 <= i < |ss| && 0 <= id ==> Follows(stops, History(ss, i, id))
  }

  function StopsOf(cfg: Config): seq<Phase> {
    (if cfg.rps > 0.0 then [RateWait] else []) + (if cfg.concurrency > 0 then [PermitWait] else []) + [InBase]
  }

  /** The history stands at the request's phase. */
  ghost predicate UpToDate(s: State, id: nat, h: seq<Phase>) {
    if id in s.requests then h != [] && h[|h| - 1] == s.requests[id].phase else h == []
  }

  lemma OwnStepFollows(cfg: Config, s: State, step: Step, h: seq<Phase>)
    requires Enabled(cfg, s, step) && UpToDate(s, step.id, h) && Follows(StopsOf(cfg), h)
    ensures var s' := Apply(cfg, s, step);
            && step.id in s'.requests
            && (step.id in s.requests ==> s'.requests[step.id].phase != s.requests[step.id].phase)
            && Follows(StopsOf(cfg), h + [s'.requests[step.id].phase])
  {
    var stops := StopsOf(cfg);
    if h <= stops && (step.Cancel? || step.RatePass? || step.Acquire?) {
      assert h == stops[..|h|] && h[|h| - 1] == stops[|h| - 1];
    }
    if step.Respond? {
      assert h == stops;
      assert h + [Recorded(step.code)] == stops + [Recorded(step.code)];
    }
    if step.Release? {
      var code := s.requests[step.id].phase.code;
      assert h == stops + [Recorded(code)];
      assert h + [Completed(code)] == stops + [Recorded(code), Completed(code)];
    }
  }

  lemma OtherStepSilent(cfg: Config, s: State, step: Step, id: nat)
    requires Enabled(cfg, s, step) && id != step.id
    ensures var s' := Apply(cfg, s, step);
            (id in s'.requests <==> id in s.requests) && (id in s.requests ==> s'.requests[id] == s.requests[id])
  {
  }

  lemma {:induction false} HistoryFollows(cfg: Config, ss: seq<State>, ts: seq<Step>, i: nat, id: nat)
    requires Run(cfg, ss, ts) && i < |ss|
    ensures UpToDate(ss[i], id, History(ss, i, id)) && Follows(StopsOf(cfg), History(ss, i, id))
  {
    if i > 0 {
      HistoryFollows(cfg, ss, ts, i - 1, id);
      assert Enabled(cfg, ss[i - 1], ts[i - 1]) && ss[i] == Apply(cfg, ss[i - 1], ts[i - 1]);
      if ts[i - 1].id == id {
        OwnStepFollows(cfg, ss[i - 1], ts[i - 1], History(ss, i - 1, id));
      } else {
        OtherStepSilent(cfg, ss[i - 1], ts[i - 1], id);
      }
    }
  }

  lemma StopsGovern(cfg: Config)
    ensures Governs(cfg, StopsOf(cfg))
  {
    forall ss, ts, i: nat, id: nat | Run(cfg, ss, ts) && i < |ss|
      ensures Follows(StopsOf(cfg), History(ss, i, id))
    {
      HistoryFollows(cfg, ss, ts, i, id);
    }
  }

  /** The composed layers, outermost first. */
  function LayersOf(cfg: Config): seq<Layer> {
    (if cfg.rps > 0.0 then [RateLimit(if cfg.concurrency < 1 then 1 else cfg.concurrency)] else []) +
    (if cfg.concurrency > 0 then [Concurrency(cfg.concurrency)] else []) +
    Inside(cfg)
  }

  /** The layers within the waits. */
  function Inside(cfg: Config): seq<Layer> {
    if cfg.registered then [Metrics, Base] else [Base]
  }

  lemma StopsAre(cfg: Config)
    ensures Stops(Inside(cfg)) == [InBase]
    ensures Stops(LayersOf(cfg)) == StopsOf(cfg)
  {
    var inside := Inside(cfg);
    assert Stops([Base]) == [InBase];
    assert inside[1..] == if cfg.registered then [Base] else [];
    var limited := (if cfg.concurrency > 0 then [Concurrency(cfg.concurrency)] else []) + inside;
    assert cfg.concurrency > 0 ==> limited[1..] == inside;
    assert cfg.concurrency <= 0 ==> limited == inside;
    assert cfg.rps > 0.0 ==> LayersOf(cfg)[1..] == limited;
    assert cfg.rps <= 0.0 ==> LayersOf(cfg) == limited;
  }

  /** Nothing inside the metrics makes a request wait. */
  lemma MetricsInside(cfg: Config, i: nat)
    requires i < |LayersOf(cfg)| && LayersOf(cfg)[i].Metrics?
    ensures Stops(LayersOf(cfg)[i..]) == [InBase]
  {
    StopsAre(cfg);
    assert i == |LayersOf(cfg)| - 2;
    assert LayersOf(cfg)[i..] == Inside(cfg);
  }

  /** The layers are those asked for, each once. */
  ghost predicate AsConfigured(cfg: Config, layers: seq<Layer>) {
    && (forall burst :: RateLimit(burst) in layers <==>
        cfg.rps > 0.0 && burst >= 1 && burst >= cfg.concurrency && burst in {1, cfg.concurrency})
    && (forall max :: Concurrency(max) in layers <==> cfg.concurrency > 0 && max == cfg.concurrency)
    && (Metrics in layers <==> cfg.registered)
    && Base in layers
    && forall i, j :: 0 <= i < j < |layers| ==> layers[i] != layers[j]
  }

  lemma LayersAsConfigured(cfg: Config)
    ensures AsConfigured(cfg, LayersOf(cfg))
  {
  }

  /** Nothing inside the metrics makes a request wait, so only requests that reach the base are recorded. */
  ghost predicate MetricsInnermost(layers: seq<Layer>) {
    forall i :: 0 <= i < |layers| && layers[i].Metrics? ==> Stops(layers[i..]) == [InBase]
  }

  lemma LayersGovern(cfg: Config)
    ensures Governs(cfg, Stops(LayersOf(cfg))) && MetricsInnermost(LayersOf(cfg))
  {
    StopsAre(cfg);
    StopsGovern(cfg);
    forall i | 0 <= i < |LayersOf(cfg)| && LayersOf(cfg)[i].Metrics?
      ensures Stops(LayersOf(cfg)[i..]) == [InBase]
    {
      MetricsInside(cfg, i);
    }
  }

  /** Composition, from the inside out. Every request of every run of the state
      machine goes through the layers from the outermost to the base transport. */
  method NewRegistryTransport(cfg: Config) returns (layers: seq<Layer>)
    ensures AsConfigured(cfg, layers)
    ensures Governs(cfg, Stops(layers))
    ensures MetricsInnermost(layers)
  {
    layers := [Base];
    if cfg.registered {
      layers := [Metrics] + layers;
    }
    assert layers == Inside(cfg);
    if cfg.concurrency > 0 {
      layers := [Concurrency(cfg.concurrency)] + layers;
    }
    if cfg.rps > 0.0 {
      var burst := cfg.concurrency;
      if burst < 1 {
        burst := 1;
      }
      layers := [RateLimit(burst)] + layers;
    }
    assert layers == LayersOf(cfg);
    LayersAsConfigured(cfg);
    LayersGovern(cfg);
  }

  // ---- What the permits are doing ------------------------------------------------

  predicate HoldsPermit(phase: Phase) {
    phase.InBase? || phase.Recorded?
  }

  /** The requests of a host that hold a permit: in the base transport, or back from it and not yet released. */
  function Holders(s: State, host: string): set<nat> {
    set id | id in s.requests && s.requests[id].host == host && HoldsPermit(s.requests[id].phase)
  }

  function InBaseOf(s: State, host: string): set<nat> {
    set id | id in s.requests && s.requests[id].host == host && s.requests[id].phase.InBase?
  }

  /** The requests counted under a key. */
  function Answered(s: State, key: (string, string, string)): set<nat> {
    set id | id in s.requests && s.requests[id].host == key.0 && s.requests[id].verb == key.1 &&
             (s.requests[id].phase == Recorded(key.2) || s.requests[id].phase == Completed(key.2))
  }

  /** Every permit of every host is either free or held by one request. */
  ghost predicate PermitInv(cfg: Config, s: State) {
    cfg.concurrency > 0 ==>
      && (forall host :: host in s.free ==> s.free[host] >= 0 && s.free[host] + |Holders(s, host)| == cfg.concurrency)
      && (forall id :: id in s.requests && (s.requests[id].phase.PermitWait? || HoldsPermit(s.requests[id].phase)) ==>
          s.requests[id].host in s.free)
  }

  ghost predicate CountInv(cfg: Config, s: State) {
    cfg.registered ==>
      forall key :: |Answered(s, key)| == if key in s.counters then s.counters[key] else 0
  }

  /** Changing one request changes the holders of its own host by at most itself. */
  lemma HoldersAfter(s: State, s': State, id: nat, r: Request, host: string)
    requires s'.requests == s.requests[id := r] && (id in s.requests ==> s.requests[id].host == r.host)
    ensures Holders(s', host) ==
              if r.host == host && HoldsPermit(r.phase) then Holders(s, host) + {id} else Holders(s, host) - {id}
  {
  }

  lemma AnsweredAfter(s: State, s': State, id: nat, r: Request, key: (string, string, string))
    requires s'.requests == s.requests[id := r]
    ensures Answered(s', key) ==
              if r.host == key.0 && r.verb == key.1 && (r.phase == Recorded(key.2) || r.phase == Completed(key.2))
              then Answered(s, key) + {id} else Answered(s, key) - {id}
  {
  }

  /** What a step does to the free permits of the host of its request. */
  lemma FreeAfter(cfg: Config, s: State, step: Step, host: string)
    requires PermitInv(cfg, s) && cfg.concurrency > 0 && Enabled(cfg, s, step) && host in Apply(cfg, s, step).free
    ensures var s', r := Apply(cfg, s, step), Apply(cfg, s, step).requests[step.id];
            s'.free[host] ==
              if host !in s.free then cfg.concurrency
              else if r.host != host then s.free[host]
              else if step.Acquire? then s.free[host] - 1
              else if step.Release? then s.free[host] + 1
              else s.free[host]
  {
  }

  /** A step changes only its own request. */
  lemma OneRequestChanges(cfg: Config, s: State, step: Step)
    requires Enabled(cfg, s, step)
    ensures var s' := Apply(cfg, s, step);
            && step.id in s'.requests
            && s'.requests == s.requests[step.id := s'.requests[step.id]]
            && (step.id in s.requests ==> s.requests[step.id].host == s'.requests[step.id].host)
            && (step.id in s.requests ==> s.requests[step.id].verb == s'.requests[step.id].verb)
  {
  }

  /** Whether the step's request holds a permit, before and after. */
  lemma HoldingChanges(cfg: Config, s: State, step: Step)
    requires Enabled(cfg, s, step) && cfg.concurrency > 0
    ensures var s' := Apply(cfg, s, step);
            && step.id in s'.requests
            && (HoldsPermit(s'.requests[step.id].phase) <==> step.Acquire? || step.Respond?)
            && ((step.id in s.requests && HoldsPermit(s.requests[step.id].phase)) <==> step.Respond? || step.Release?)
  {
  }

  lemma HolderCount(s: State, s': State, id: nat, r: Request, host: string, was: bool)
    requires s'.requests == s.requests[id := r] && (id in s.requests ==> s.requests[id].host == r.host)
    requires was <==> id in s.requests && HoldsPermit(s.requests[id].phase)
    ensures |Holders(s', host)| ==
              if r.host != host || was == HoldsPermit(r.phase) then |Holders(s, host)|
              else if was then |Holders(s, host)| - 1 else |Holders(s, host)| + 1
  {
    HoldersAfter(s, s', id, r, host);
    assert id in Holders(s, host) <==> was && r.host == host;
    if id in Holders(s, host) {
      assert Holders(s, host) + {id} == Holders(s, host);
    } else {
      assert Holders(s, host) - {id} == Holders(s, host);
    }
  }

  lemma PermitConserved(cfg: Config, s: State, step: Step, host: string)
    requires PermitInv(cfg, s) && cfg.concurrency > 0 && Enabled(cfg, s, step) && host in Apply(cfg, s, step).free
    ensures var s' := Apply(cfg, s, step); s'.free[host] >= 0 && s'.free[host] + |Holders(s', host)| == cfg.concurrency
  {
    var s' := Apply(cfg, s, step);
    OneRequestChanges(cfg, s, step);
    HoldingChanges(cfg, s, step);
    HolderCount(s, s', step.id, s'.requests[step.id], host, step.Respond? || step.Release?);
    FreeAfter(cfg, s, step, host);
    NoHoldersBeforeSemaphore(cfg, s, host);
    AcquireNeedsPermit(cfg, s, step);
  }

  lemma NoHoldersBeforeSemaphore(cfg: Config, s: State, host: string)
    requires PermitInv(cfg, s) && cfg.concurrency > 0
    ensures host !in s.free ==> Holders(s, host) == {}
  {
  }

  lemma AcquireNeedsPermit(cfg: Config, s: State, step: Step)
    requires PermitInv(cfg, s) && cfg.concurrency > 0 && Enabled(cfg, s, step)
    ensures step.Acquire? ==> s.requests[step.id].host in s.free && s.free[s.requests[step.id].host] > 0
    ensures step.Respond? || step.Release? ==> s.requests[step.id].host in s.free
  {
  }

  lemma PermitHostsKnown(cfg: Config, s: State, step: Step)
    requires PermitInv(cfg, s) && cfg.concurrency > 0 && Enabled(cfg, s, step)
    ensures var s' := Apply(cfg, s, step);
            forall id ::
              id in s'.requests && (s'.requests[id].phase.PermitWait? || HoldsPermit(s'.requests[id].phase)) ==>
                s'.requests[id].host in s'.free
  {
  }

  lemma PermitsPreserved(cfg: Config, s: State, step: Step)
    requires PermitInv(cfg, s) && Enabled(cfg, s, step)
    ensures PermitInv(cfg, Apply(cfg, s, step))
  {
    if cfg.concurrency > 0 {
      PermitHostsKnown(cfg, s, step);
      forall host | host in Apply(cfg, s, step).free {
        PermitConserved(cfg, s, step, host);
      }
    }
  }

  predicate AnsweredAs(r: Request, key: (string, string, string)) {
    r.host == key.0 && r.verb == key.1 && (r.phase == Recorded(key.2) || r.phase == Completed(key.2))
  }

  lemma AnsweredCount(s: State, s': State, id: nat, r: Request, key: (string, string, string))
    requires s'.requests == s.requests[id := r]
    ensures |Answered(s', key)| == |Answered(s, key)| +
              (if AnsweredAs(r, key) then 1 else 0) -
              (if id in s.requests && AnsweredAs(s.requests[id], key) then 1 else 0)
  {
    AnsweredAfter(s, s', id, r, key);
    if id in Answered(s, key) {
      assert Answered(s, key) + {id} == Answered(s, key);
    } else {
      assert Answered(s, key) - {id} == Answered(s, key);
    }
  }

  /** A step counts a request under a key exactly when it answers it so. */
  lemma CounterChanges(cfg: Config, s: State, step: Step, key: (string, string, string))
    requires Enabled(cfg, s, step) && cfg.registered
    ensures var s' := Apply(cfg, s, step);
            && step.id in s'.requests
            && (if key in s'.counters then s'.counters[key] else 0) ==
               (if key in s.counters then s.counters[key] else 0) +
               (if AnsweredAs(s'.requests[step.id], key) then 1 else 0) -
               (if step.id in s.requests && AnsweredAs(s.requests[step.id], key) then 1 else 0)
  {
  }

  lemma CountedExactly(cfg: Config, s: State, step: Step, key: (string, string, string))
    requires CountInv(cfg, s) && cfg.registered && Enabled(cfg, s, step)
    ensures var s' := Apply(cfg, s, step); |Answered(s', key)| == if key in s'.counters then s'.counters[key] else 0
  {
    var s' := Apply(cfg, s, step);
    OneRequestChanges(cfg, s, step);
    AnsweredCount(s, s', step.id, s'.requests[step.id], key);
    CounterChanges(cfg, s, step, key);
  }

  lemma CountsPreserved(cfg: Config, s: State, step: Step)
    requires CountInv(cfg, s) && Enabled(cfg, s, step)
    ensures CountInv(cfg, Apply(cfg, s, step))
  {
    if cfg.registered {
      forall key {
        CountedExactly(cfg, s, step, key);
      }
    }
  }

  lemma {:induction false} Reachable(cfg: Config, ss: seq<State>, ts: seq<Step>, i: nat)
    requires Run(cfg, ss, ts) && i < |ss|
    ensures PermitInv(cfg, ss[i]) && CountInv(cfg, ss[i])
  {
    if i == 0 {
      assert forall key :: Answered(START, key) == {};
    } else {
      Reachable(cfg, ss, ts, i - 1);
      assert Enabled(cfg, ss[i - 1], ts[i - 1]) && ss[i] == Apply(cfg, ss[i - 1], ts[i - 1]);
      PermitsPreserved(cfg, ss[i - 1], ts[i - 1]);
      CountsPreserved(cfg, ss[i - 1], ts[i - 1]);
    }
  }

  /** In every run, at every moment, free and held permits of a host add up to
      the maximum, and so the base transport never serves more than that many
      requests of one host at once. */
  lemma PerHostBound(cfg: Config, ss: seq<State>, ts: seq<Step>, i: nat, host: string)
    requires Run(cfg, ss, ts) && i < |ss| && cfg.concurrency > 0
    ensures host in ss[i].free ==> ss[i].free[host] + |Holders(ss[i], host)| == cfg.concurrency
    ensures |InBaseOf(ss[i], host)| <= |Holders(ss[i], host)| <= cfg.concurrency
  {
    Reachable(cfg, ss, ts, i);
    var s := ss[i];
    assert Holders(s, host) == InBaseOf(s, host) + (Holders(s, host) - InBaseOf(s, host));
    if host !in s.free {
      assert Holders(s, host) == {};
    }
  }

  /** Requests waiting on the rate limiter, waiting for a permit, cancelled or
      completed hold nothing: once no request of a host is in the base transport
      or leaving it, all its permits are free. */
  lemma IdleHostHasAllPermits(cfg: Config, ss: seq<State>, ts: seq<Step>, i: nat, host: string)
    requires Run(cfg, ss, ts) && i < |ss| && cfg.concurrency > 0 && host in ss[i].free
    requires forall id :: id in ss[i].requests && ss[i].requests[id].host == host ==>
               !HoldsPermit(ss[i].requests[id].phase)
    ensures ss[i].free[host] == cfg.concurrency
  {
    Reachable(cfg, ss, ts, i);
    assert Holders(ss[i], host) == {};
  }

  /** A waiting request can be admitted exactly when its own host is below the maximum, whatever other hosts do. */
  lemma AdmissionDependsOnHostOnly(cfg: Config, ss: seq<State>, ts: seq<Step>, i: nat, id: nat)
    requires Run(cfg, ss, ts) && i < |ss| && cfg.concurrency > 0 && InPhase(ss[i], id, PermitWait)
    ensures Enabled(cfg, ss[i], Acquire(id)) <==> |Holders(ss[i], ss[i].requests[id].host)| < cfg.concurrency
  {
    Reachable(cfg, ss, ts, i);
  }

  /** A request that is not done can be moved on, unless it waits for a permit
      while its host is at the maximum; and every wait can be cancelled. */
  lemma RequestProceeds(cfg: Config, ss: seq<State>, ts: seq<Step>, i: nat, id: nat)
    requires Run(cfg, ss, ts) && i < |ss| && id in ss[i].requests
    ensures var s, phase := ss[i], ss[i].requests[id].phase;
            && (phase.RateWait? ==> Enabled(cfg, s, RatePass(id)))
            && (phase.RateWait? || phase.PermitWait? ==> Enabled(cfg, s, Cancel(id)))
            && (phase.InBase? ==> forall code :: Enabled(cfg, s, Respond(id, code)))
            && (phase.Recorded? ==> Enabled(cfg, s, Release(id)))
    ensures var s := ss[i];
            InPhase(s, id, PermitWait) && |Holders(s, s.requests[id].host)| < cfg.concurrency ==>
              Enabled(cfg, s, Acquire(id))
  {
    if ss[i].requests[id].phase.PermitWait? && cfg.concurrency > 0 {
      AdmissionDependsOnHostOnly(cfg, ss, ts, i, id);
    }
  }

  /** A step of a request to another host leaves this host's permits, holders and waiters alone. */
  lemma HostsIsolated(cfg: Config, s: State, step: Step, host: string)
    requires Enabled(cfg, s, step) && Apply(cfg, s, step).requests[step.id].host != host
    ensures var s' := Apply(cfg, s, step);
            && (host in s'.free <==> host in s.free)
            && (host in s.free ==> s'.free[host] == s.free[host])
            && Holders(s', host) == Holders(s, host)
            && forall id :: id in s.requests && s.requests[id].host == host ==>
                 id in s'.requests && s'.requests[id] == s.requests[id]
  {
    HoldersAfter(s, Apply(cfg, s, step), step.id, Apply(cfg, s, step).requests[step.id], host);
  }

  /** Step i answered a request of this host and method with this code. */
  ghost predicate RespondsAt(ss: seq<State>, ts: seq<Step>, i: nat, key: (string, string, string)) {
    && i < |ts| && i < |ss|
    && ts[i].Respond? && ts[i].code == key.2
    && ts[i].id in ss[i].requests
    && ss[i].requests[ts[i].id].host == key.0 && ss[i].requests[ts[i].id].verb == key.1
  }

  ghost function Responses(ss: seq<State>, ts: seq<Step>, n: nat, key: (string, string, string)): set<nat> {
    set i: nat | i < n && RespondsAt(ss, ts, i, key)
  }

  /** One step's part in a counter. */
  lemma CounterStep(cfg: Config, ss: seq<State>, ts: seq<Step>, m: nat, key: (string, string, string))
    requires Run(cfg, ss, ts) && m < |ts| && cfg.registered
    ensures (if key in ss[m + 1].counters then ss[m + 1].counters[key] else 0) ==
            (if key in ss[m].counters then ss[m].counters[key] else 0) +
            (if RespondsAt(ss, ts, m, key) then 1 else 0)
  {
    assert Enabled(cfg, ss[m], ts[m]) && ss[m + 1] == Apply(cfg, ss[m], ts[m]);
  }

  lemma ResponsesNext(ss: seq<State>, ts: seq<Step>, m: nat, key: (string, string, string))
    ensures |Responses(ss, ts, m + 1, key)| ==
            |Responses(ss, ts, m, key)| + if RespondsAt(ss, ts, m, key) then 1 else 0
  {
    assert Responses(ss, ts, m + 1, key) ==
           Responses(ss, ts, m, key) + if RespondsAt(ss, ts, m, key) then {m} else {};
  }

  /** The request counter of a host, method and code counts the answers of the
      base transport that had them, each once, whatever became of the request afterwards. */
  lemma {:induction false} CountersCountResponses(
      cfg: Config, ss: seq<State>, ts: seq<Step>, n: nat, key: (string, string, string))
    requires Run(cfg, ss, ts) && n < |ss| && cfg.registered
    ensures |Responses(ss, ts, n, key)| == if key in ss[n].counters then ss[n].counters[key] else 0
  {
    if n == 0 {
      assert Responses(ss, ts, 0, key) == {};
    } else {
      var m := n - 1;
      CountersCountResponses(cfg, ss, ts, m, key);
      CounterStep(cfg, ss, ts, m, key);
      ResponsesNext(ss, ts, m, key);
    }
  }

  /** A limiter exists exactly for the hosts of the requests made so far, if there is a rate at all. */
  lemma {:induction false} LimitersAre(cfg: Config, ss: seq<State>, ts: seq<Step>, n: nat, host: string)
    requires Run(cfg, ss, ts) && n < |ss|
    ensures host in ss[n].limiters <==>
              cfg.rps > 0.0 && exists id :: id in ss[n].requests && ss[n].requests[id].host == host
  {
    if n > 0 {
      LimitersAre(cfg, ss, ts, n - 1, host);
      var s, s' := ss[n - 1], ss[n];
      assert Enabled(cfg, s, ts[n - 1]) && s' == Apply(cfg, s, ts[n - 1]);
      OneRequestChanges(cfg, s, ts[n - 1]);
      var id := ts[n - 1].id;
      assert forall x :: x in s.requests ==> x in s'.requests && s'.requests[x].host == s.requests[x].host;
    }
  }

  /** The request counter of a host, method and code is the number of requests
      the base transport has answered so; requests turned away before it are not counted. */
  lemma CountersExact(cfg: Config, ss: seq<State>, ts: seq<Step>, i: nat, key: (string, string, string))
    requires Run(cfg, ss, ts) && i < |ss| && cfg.registered
    ensures |Answered(ss[i], key)| == if key in ss[i].counters then ss[i].counters[key] else 0
  {
    Reachable(cfg, ss, ts, i);
  }
}
