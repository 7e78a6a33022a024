/** Runs that reach what the comments of the program rule out: a scrape that
    evicts an image some workload names throughout, because the naming workload
    moves from one kind to another; and a live reference whose entry expires and
    is not fetched again. */
module ProtocolLimits {
  import opened Options
  import opened References
  import opened ImageCache
  import opened Protocol

  type Workloads = seq<set<Ref>>

  /** Some kind names r. */
  ghost predicate Named(s: State, r: Ref) {
    exists k :: 0 <= k < |s.live| && r in s.live[k]
  }

  /** A run to the state last, with the workloads of every state among those given. */
  ghost predicate RunTo(cfg: Config, ss: seq<State>, ts: seq<Step>, lives: set<Workloads>, last: State) {
    && Run(cfg, ss, ts)
    && ss[|ts|] == last
    && forall i :: 0 <= i < |ss| ==> ss[i].live in lives
  }

  lemma Extend(
      cfg: Config, ss: seq<State>, ts: seq<Step>, lives: set<Workloads>, last: State, step: Step, next: State)
    returns (ss': seq<State>, ts': seq<Step>)
    requires RunTo(cfg, ss, ts, lives, last) && Stepped(cfg, last, step, next) && next.live in lives
    ensures RunTo(cfg, ss', ts', lives, next)
    ensures ss' == ss + [next] && ts' == ts + [step]
  {
    ss', ts' := ss + [next], ts + [step];
  }

  /** Kind 1 alone names r. */
  function Home(r: Ref): Workloads {
    [{}, {r}]
  }

  /** Call 0 on r, while kind 1 alone names r. */
  function Calling(r: Ref, phase: CallPhase, flights: map<nat, Flight>, group: map<string, nat>, cache: Cache): State {
    State(1, cache, Home(r), map[], map[0 := Call(r, phase)], flights, group)
  }

  function Flying(r: Ref, phase: FlightPhase, cache: Cache): State {
    Calling(r, Waiting(0), map[0 := Flight(r, phase)], map[r.String() := 0], cache)
  }

  function Start(r: Ref): State {
    State(1, EMPTY, Home(r), map[], map[], map[], map[])
  }

  function BeforeFetch(r: Ref, phase: CallPhase): State {
    Calling(r, phase, map[], map[], EMPTY)
  }

  function LandedState(r: Ref, image: Image): State {
    Flying(r, Landed(image), Stored(EMPTY, r, image, 1))
  }

  lemma CallSteps(cfg: Config, r: Ref)
    requires cfg.kinds == 2
    ensures Stepped(cfg, Start(r), CallBegin(0, r), BeforeFetch(r, Begun))
    ensures Stepped(cfg, BeforeFetch(r, Begun), CallLookup(0), BeforeFetch(r, LookedUp(None)))
    ensures Stepped(cfg, BeforeFetch(r, LookedUp(None)), CallCheck(0), BeforeFetch(r, Missed(None)))
    ensures Stepped(cfg, BeforeFetch(r, Missed(None)), CallJoin(0, 0), Flying(r, Fetching, EMPTY))
  {
  }

  lemma FlightSteps(cfg: Config, r: Ref, image: Image)
    requires cfg.kinds == 2 && Answers(image, r)
    ensures Stepped(cfg, Flying(r, Fetching, EMPTY), FlightFetch(0, Some(image)), Flying(r, Fetched(image), EMPTY))
    ensures Stepped(cfg, Flying(r, Fetched(image), EMPTY), FlightPut(0), LandedState(r, image))
  {
  }

  /** A cold miss, its fetch and its put. */
  lemma StoreWhileNamed(cfg: Config, r: Ref, image: Image, lives: set<Workloads>)
    returns (ss: seq<State>, ts: seq<Step>)
    requires cfg.kinds == 2 && Answers(image, r) && Home(r) in lives
    ensures RunTo(cfg, ss, ts, lives, LandedState(r, image))
    ensures |ts| == 6 && ts[5] == FlightPut(0) && ss[5] == Flying(r, Fetched(image), EMPTY)
  {
    CallSteps(cfg, r);
    FlightSteps(cfg, r, image);
    ss, ts := [Start(r)], [];
    ss, ts := Extend(cfg, ss, ts, lives, Start(r), CallBegin(0, r), BeforeFetch(r, Begun));
    ss, ts := Extend(cfg, ss, ts, lives, BeforeFetch(r, Begun), CallLookup(0), BeforeFetch(r, LookedUp(None)));
    ss, ts := Extend(cfg, ss, ts, lives, BeforeFetch(r, LookedUp(None)), CallCheck(0), BeforeFetch(r, Missed(None)));
    ss, ts := Extend(cfg, ss, ts, lives, BeforeFetch(r, Missed(None)), CallJoin(0, 0), Flying(r, Fetching, EMPTY));
    ss, ts := Extend(
      cfg, ss, ts, lives, Flying(r, Fetching, EMPTY), FlightFetch(0, Some(image)), Flying(r, Fetched(image), EMPTY));
    ss, ts := Extend(cfg, ss, ts, lives, Flying(r, Fetched(image), EMPTY), FlightPut(0), LandedState(r, image));
  }

  // ---- A handover during a scrape ------------------------------------------------

  /** Scrape 0 with the given number of kinds listed, having found nothing. */
  function Scraping(r: Ref, image: Image, listed: nat, live: Workloads): State {
    LandedState(r, image).(clock := 2, live := live, collectors := map[0 := Collector(2, listed, [], 0, map[], 0)])
  }

  function Scraped(r: Ref, image: Image): State {
    LandedState(r, image).(clock := 2, live := [{r}, {}], cache := Evicted(Stored(EMPTY, r, image, 1), {}, 2))
  }

  lemma ScrapeSteps(cfg: Config, r: Ref, image: Image)
    requires cfg.kinds == 2
    ensures Stepped(cfg, LandedState(r, image), Tick(2), LandedState(r, image).(clock := 2))
    ensures Stepped(cfg, LandedState(r, image).(clock := 2), ScrapeBegin(0), Scraping(r, image, 0, Home(r)))
    ensures Stepped(cfg, Scraping(r, image, 0, Home(r)), ScrapeList(0, []), Scraping(r, image, 1, Home(r)))
  {
    var none: seq<Ref> := [];
    assert none + none == none && (set x | x in none) == {};
  }

  lemma HandoverSteps(cfg: Config, r: Ref, image: Image)
    requires cfg.kinds == 2
    ensures Stepped(
              cfg, Scraping(r, image, 1, Home(r)), ChangeWorkloads([{r}, {r}]), Scraping(r, image, 1, [{r}, {r}]))
    ensures Stepped(
              cfg, Scraping(r, image, 1, [{r}, {r}]), ChangeWorkloads([{r}, {}]), Scraping(r, image, 1, [{r}, {}]))
    ensures Stepped(cfg, Scraping(r, image, 1, [{r}, {}]), ScrapeList(0, []), Scraping(r, image, 2, [{r}, {}]))
    ensures Stepped(cfg, Scraping(r, image, 2, [{r}, {}]), ScrapeEvict(0), Scraped(r, image))
  {
    var none: seq<Ref> := [];
    assert none + none == none && (set x | x in none) == {};
    assert Keys([]) == {};
  }

  lemma ScrapeFirstKind(cfg: Config, r: Ref, image: Image, lives: set<Workloads>)
    returns (ss: seq<State>, ts: seq<Step>)
    requires cfg.kinds == 2 && Answers(image, r) && Home(r) in lives
    ensures RunTo(cfg, ss, ts, lives, Scraping(r, image, 1, Home(r)))
    ensures |ts| == 9 && ts[5] == FlightPut(0) && ss[6] == LandedState(r, image)
  {
    ss, ts := StoreWhileNamed(cfg, r, image, lives);
    ScrapeSteps(cfg, r, image);
    var later := LandedState(r, image).(clock := 2);
    ss, ts := Extend(cfg, ss, ts, lives, LandedState(r, image), Tick(2), later);
    ss, ts := Extend(cfg, ss, ts, lives, later, ScrapeBegin(0), Scraping(r, image, 0, Home(r)));
    ss, ts := Extend(
      cfg, ss, ts, lives, Scraping(r, image, 0, Home(r)), ScrapeList(0, []), Scraping(r, image, 1, Home(r)));
  }

  lemma ScrapeAfterHandover(cfg: Config, r: Ref, image: Image, lives: set<Workloads>)
    returns (ss: seq<State>, ts: seq<Step>)
    requires cfg.kinds == 2 && Answers(image, r) && lives == {Home(r), [{r}, {r}], [{r}, {}]}
    ensures RunTo(cfg, ss, ts, lives, Scraped(r, image))
    ensures |ts| == 13 && ts[5] == FlightPut(0) && ss[6] == LandedState(r, image)
  {
    ss, ts := ScrapeFirstKind(cfg, r, image, lives);
    HandoverSteps(cfg, r, image);
    var both, moved := Scraping(r, image, 1, [{r}, {r}]), Scraping(r, image, 1, [{r}, {}]);
    ss, ts := Extend(cfg, ss, ts, lives, Scraping(r, image, 1, Home(r)), ChangeWorkloads([{r}, {r}]), both);
    ss, ts := Extend(cfg, ss, ts, lives, both, ChangeWorkloads([{r}, {}]), moved);
    ss, ts := Extend(cfg, ss, ts, lives, moved, ScrapeList(0, []), Scraping(r, image, 2, [{r}, {}]));
    ss, ts := Extend(cfg, ss, ts, lives, Scraping(r, image, 2, [{r}, {}]), ScrapeEvict(0), Scraped(r, image));
  }

  /** A scrape lists kind 0 while only kind 1 names r, and kind 1 after r has
      moved to kind 0. It finds r in neither list and evicts an image that some
      workload named in every single state of the run. */
  lemma HandoverLosesImage(cfg: Config, r: Ref, image: Image) returns (ss: seq<State>, ts: seq<Step>)
    requires cfg.kinds == 2 && Answers(image, r)
    ensures Run(cfg, ss, ts) && |ts| == 13 && forall i :: 0 <= i < |ss| ==> Named(ss[i], r)
    ensures ts[5] == FlightPut(0) && Lookup(ss[6].cache, r) == Some(CachedImage(image, 1))
    ensures Lookup(ss[13].cache, r).None?
  {
    ss, ts := ScrapeAfterHandover(cfg, r, image, {Home(r), [{r}, {r}], [{r}, {}]});
    assert ss[13] == Scraped(r, image);
    forall i | 0 <= i < |ss|
      ensures Named(ss[i], r)
    {
      assert r in ss[i].live[0] || r in ss[i].live[1];
    }
  }

  // ---- An entry that expires ---------------------------------------------------

  /** A clock reading at which an entry stored at 1 has expired. */
  function Late(cfg: Config): int {
    if cfg.cacheDuration > 0 then 1 + cfg.cacheDuration else 1
  }

  function FirstCall(r: Ref, image: Image): Call {
    Call(r, Returned(FromFetch(0, image)))
  }

  /** After the fetch of call 0 has finished. */
  function Idle(r: Ref, image: Image, now: int): State {
    State(
      now, Stored(EMPTY, r, image, 1), Home(r), map[], map[0 := FirstCall(r, image)],
      map[0 := Flight(r, Finished(Some(image)))], map[])
  }

  /** Call 1 on r, once the entry has expired. */
  function SecondCall(cfg: Config, r: Ref, image: Image, phase: CallPhase): State {
    Idle(r, image, Late(cfg)).(calls := map[0 := FirstCall(r, image), 1 := Call(r, phase)])
  }

  lemma FinishStep(cfg: Config, r: Ref, image: Image)
    ensures Stepped(cfg, LandedState(r, image), FlightFinish(0), Idle(r, image, 1))
    ensures Stepped(cfg, Idle(r, image, 1), Tick(Late(cfg)), Idle(r, image, Late(cfg)))
  {
    var s := LandedState(r, image);
    assert Deliver(s.calls, 0, FlightOutcome(0, Some(image))) == map[0 := FirstCall(r, image)];
    assert s.group - {r.String()} == map[];
  }

  lemma SecondCallLookup(cfg: Config, r: Ref, image: Image)
    requires Answers(image, r)
    ensures Stepped(cfg, Idle(r, image, Late(cfg)), CallBegin(1, r), SecondCall(cfg, r, image, Begun))
    ensures Stepped(cfg, SecondCall(cfg, r, image, Begun), CallLookup(1),
                    SecondCall(cfg, r, image, LookedUp(Some(CachedImage(image, 1)))))
  {
    var c := Stored(EMPTY, r, image, 1);
    assert Lookup(c, r) == Some(CachedImage(image, 1));
    var s := SecondCall(cfg, r, image, Begun);
    assert Idle(r, image, Late(cfg)).calls[1 := Call(r, Begun)] == s.calls;
    assert s.calls[1 := Call(r, LookedUp(Some(CachedImage(image, 1))))] ==
           SecondCall(cfg, r, image, LookedUp(Some(CachedImage(image, 1)))).calls;
  }

  lemma SecondCallCheck(cfg: Config, r: Ref, image: Image, entry: CachedImage)
    ensures Stepped(cfg, SecondCall(cfg, r, image, LookedUp(Some(entry))), CallCheck(1),
                    SecondCall(cfg, r, image, AfterCheck(cfg, Late(cfg), Some(entry))))
  {
    var phase := AfterCheck(cfg, Late(cfg), Some(entry));
    assert SecondCall(cfg, r, image, LookedUp(Some(entry))).calls[1 := Call(r, phase)] ==
           SecondCall(cfg, r, image, phase).calls;
  }

  /** The fetch finishes and the entry expires. */
  lemma Expire(cfg: Config, r: Ref, image: Image, ss: seq<State>, ts: seq<Step>, lives: set<Workloads>)
    returns (ss': seq<State>, ts': seq<Step>)
    requires Home(r) in lives && RunTo(cfg, ss, ts, lives, LandedState(r, image))
    ensures RunTo(cfg, ss', ts', lives, Idle(r, image, Late(cfg)))
    ensures ts' == ts + [FlightFinish(0), Tick(Late(cfg))] && ss <= ss'
  {
    FinishStep(cfg, r, image);
    ss', ts' := Extend(cfg, ss, ts, lives, LandedState(r, image), FlightFinish(0), Idle(r, image, 1));
    ss', ts' := Extend(cfg, ss', ts', lives, Idle(r, image, 1), Tick(Late(cfg)), Idle(r, image, Late(cfg)));
  }

  /** A call made then. */
  lemma CallExpired(cfg: Config, r: Ref, image: Image, ss: seq<State>, ts: seq<Step>, lives: set<Workloads>)
    returns (ss': seq<State>, ts': seq<Step>)
    requires Answers(image, r) && Home(r) in lives && RunTo(cfg, ss, ts, lives, Idle(r, image, Late(cfg)))
    ensures RunTo(cfg, ss', ts', lives,
                  SecondCall(cfg, r, image, AfterCheck(cfg, Late(cfg), Some(CachedImage(image, 1)))))
    ensures ts' == ts + [CallBegin(1, r), CallLookup(1), CallCheck(1)]
    ensures ss <= ss' && ss'[|ts| + 2].clock == Late(cfg)
  {
    SecondCallLookup(cfg, r, image);
    SecondCallCheck(cfg, r, image, CachedImage(image, 1));
    var found := SecondCall(cfg, r, image, LookedUp(Some(CachedImage(image, 1))));
    var checked := SecondCall(cfg, r, image, AfterCheck(cfg, Late(cfg), Some(CachedImage(image, 1))));
    ss', ts' := Extend(
      cfg, ss, ts, lives, Idle(r, image, Late(cfg)), CallBegin(1, r), SecondCall(cfg, r, image, Begun));
    ss', ts' := Extend(cfg, ss', ts', lives, SecondCall(cfg, r, image, Begun), CallLookup(1), found);
    ss', ts' := Extend(cfg, ss', ts', lives, found, CallCheck(1), checked);
  }

  /** A reference is fetched and put, and kind 1 names it in every state. A call
      made one cache duration later fails as expired; under the corrected guard
      it goes on to fetch. */
  lemma ExpiredEntryNotRefreshed(cfg: Config, r: Ref, image: Image) returns (ss: seq<State>, ts: seq<Step>)
    requires cfg.kinds == 2 && Answers(image, r)
    ensures Run(cfg, ss, ts) && |ts| == 11 && forall i :: 0 <= i < |ss| ==> ss[i].live == Home(r)
    ensures ts[5] == FlightPut(0) && ss[5].flights == map[0 := Flight(r, Fetched(image))]
    ensures forall i :: 5 < i < |ts| ==> !ts[i].FlightPut?
    ensures ts[8] == CallBegin(1, r) && ts[10] == CallCheck(1)
    ensures 1 in ss[11].calls && ss[11].calls[1].ref == r
    ensures !cfg.refreshExpired ==>
              ss[11].calls[1].phase == Returned(ExpiredError(CachedImage(image, ss[5].clock), ss[10].clock))
    ensures cfg.refreshExpired ==> ss[11].calls[1].phase.Missed?
  {
    var before, steps := StoreWhileNamed(cfg, r, image, {Home(r)});
    var between, more := Expire(cfg, r, image, before, steps, {Home(r)});
    ss, ts := CallExpired(cfg, r, image, between, more, {Home(r)});
    assert ss[5] == between[5] == before[5] && ts[..6] == more[..6] == steps;
  }
}
