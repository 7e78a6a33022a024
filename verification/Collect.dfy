/** A whole scrape: the lists, the containers of every listed item, and the eviction. */
module Collect {
  import opened Options
  import opened References
  import opened ImageCache
  import opened Json
  import opened Extraction
  import opened ExtractionLaws
  import opened Metrics
  import Protocol

  /** A listed item with the container paths of its kind. */
  datatype Work = Work(item: Item, paths: seq<seq<string>>)

  function WorkOf(items: seq<Item>, paths: seq<seq<string>>): seq<Work> {
    seq(|items|, i requires 0 <= i < |items| => Work(items[i], paths))
  }

  /** What each list returned; a failed one, nothing. */
  function Rows(e: Exporter, lists: seq<Option<seq<Item>>>): seq<seq<Work>>
    requires |lists| <= |e.resources|
  {
    seq(|lists|, r requires 0 <= r < |lists| =>
      if lists[r].Some? then WorkOf(lists[r].value, e.resources[r]) else [])
  }

  /** Everything the lists returned, kind by kind. */
  function AllWork(e: Exporter, lists: seq<Option<seq<Item>>>): seq<Work>
    requires |lists| <= |e.resources|
  {
    Flat(Rows(e, lists))
  }

  function Flat<T>(rows: seq<seq<T>>): seq<T> {
    if rows == [] then [] else Flat(rows[..|rows| - 1]) + rows[|rows| - 1]
  }

  /** A place in a table of rows, in reading order. */
  datatype Slot = Slot(r: nat, i: nat)

  predicate SlotBefore(a: Slot, b: Slot) {
    a.r < b.r || (a.r == b.r && a.i < b.i)
  }

  predicate InRows<T>(rows: seq<seq<T>>, slot: Slot) {
    slot.r < |rows| && slot.i < |rows[slot.r]|
  }

  /** all holds what is in the rows, row by row and in the order of each row:
      its k-th element is the one at src[k], and src runs through every slot in reading order. */
  ghost predicate Enumerates<T>(rows: seq<seq<T>>, all: seq<T>, src: seq<Slot>) {
    && |src| == |all|
    && (forall k :: 0 <= k < |src| ==> InRows(rows, src[k]) && all[k] == rows[src[k].r][src[k].i])
    && (forall k, l :: 0 <= k < l < |src| ==> SlotBefore(src[k], src[l]))
    && (forall slot :: InRows(rows, slot) ==> slot in src)
  }

  function RowSlots(r: nat, n: nat): (src: seq<Slot>)
    ensures |src| == n && forall i :: 0 <= i < n ==> src[i] == Slot(r, i)
  {
    seq(n, i requires 0 <= i < n => Slot(r, i))
  }

  lemma EnumeratesNext<T>(rows: seq<seq<T>>, row: seq<T>, all: seq<T>, src: seq<Slot>)
    requires Enumerates(rows, all, src)
    ensures Enumerates(rows + [row], all + row, src + RowSlots(|rows|, |row|))
  {
    var rows', src' := rows + [row], src + RowSlots(|rows|, |row|);
    forall slot | InRows(rows', slot)
      ensures slot in src'
    {
      if slot.r < |rows| {
        assert InRows(rows, slot);
      } else {
        assert src'[|src| + slot.i] == slot;
      }
    }
  }

  lemma {:induction false} FlatEnumerates<T>(rows: seq<seq<T>>) returns (src: seq<Slot>)
    ensures Enumerates(rows, Flat(rows), src)
  {
    src := [];
    if rows != [] {
      var n := |rows| - 1;
      var front := FlatEnumerates(rows[..n]);
      EnumeratesNext(rows[..n], rows[n], Flat(rows[..n]), front);
      src := front + RowSlots(n, |rows[n]|);
      assert rows[..n] + [rows[n]] == rows;
    }
  }

  lemma FlatNext<T>(rows: seq<seq<T>>, row: seq<T>)
    ensures Flat(rows + [row]) == Flat(rows) + row
  {
    assert (rows + [row])[..|rows|] == rows;
  }

  /** The i-th item of the list of kind r. */
  predicate IsListed(lists: seq<Option<seq<Item>>>, slot: Slot) {
    slot.r < |lists| && lists[slot.r].Some? && slot.i < |lists[slot.r].value|
  }

  /** all holds every item of every list, with the container paths of its kind, list by list and in list order. */
  ghost predicate ListedInOrder(e: Exporter, lists: seq<Option<seq<Item>>>, all: seq<Work>, src: seq<Slot>)
    requires |lists| <= |e.resources|
  {
    && |src| == |all|
    && (forall k :: 0 <= k < |src| ==>
        && IsListed(lists, src[k])
        && all[k].item == lists[src[k].r].value[src[k].i]
        && all[k].paths == e.resources[src[k].r])
    && (forall k, l :: 0 <= k < l < |src| ==> SlotBefore(src[k], src[l]))
    && (forall slot :: IsListed(lists, slot) ==> slot in src)
  }

  lemma AllWorkInOrder(e: Exporter, lists: seq<Option<seq<Item>>>) returns (src: seq<Slot>)
    requires |lists| <= |e.resources|
    ensures ListedInOrder(e, lists, AllWork(e, lists), src)
  {
    var rows := Rows(e, lists);
    src := FlatEnumerates(rows);
    assert forall slot :: IsListed(lists, slot) <==> InRows(rows, slot);
  }

  /** part records, in order, the containers extracted from one item. */
  ghost predicate ItemObserved(w: Work, part: seq<Observation>) {
    exists specs :: Observes(w, part, specs)
  }

  ghost predicate Observes(w: Work, part: seq<Observation>, specs: seq<ContainerSpec>) {
    && TableExtracted(w.item.content, w.paths, specs)
    && |part| == |specs|
    && forall k :: 0 <= k < |part| ==> part[k].item == w.item && part[k].spec == specs[k]
  }

  /** The parts record the containers of all the work, item by item. */
  ghost predicate Covers(all: seq<Work>, parts: seq<seq<Observation>>) {
    |parts| == |all| && forall n :: 0 <= n < |all| ==> ItemObserved(all[n], parts[n])
  }

  /** Each container's reference is what its image parses to, and its answer
      that of the next cache read. */
  ghost predicate Read(trace: seq<Observation>, parse: string -> Option<Ref>, answer: nat -> Option<CachedImage>) {
    forall k :: 0 <= k < |trace| ==>
      && trace[k].ref == parse(trace[k].spec.image)
      && trace[k].hit == if trace[k].ref.Some? then answer(|ActiveRefs(trace[..k])|) else None
  }

  /** The n-th active reference was read by a container it is the reference of,
      with the n-th answer; a container without a reference reads nothing. */
  ghost predicate ReadInTurn(trace: seq<Observation>, refs: seq<Ref>, answer: nat -> Option<CachedImage>) {
    && (forall n :: 0 <= n < |refs| ==>
        exists k :: 0 <= k < |trace| && trace[k].ref == Some(refs[n]) && trace[k].hit == answer(n))
    && (forall k :: 0 <= k < |trace| && trace[k].ref.None? ==> trace[k].hit.None?)
  }

  lemma {:induction false} ReaderOf(trace: seq<Observation>, n: nat) returns (k: nat)
    requires n < |ActiveRefs(trace)|
    ensures k < |trace| && |ActiveRefs(trace[..k])| == n && trace[k].ref == Some(ActiveRefs(trace)[n])
  {
    var m := |trace| - 1;
    if n < |ActiveRefs(trace[..m])| {
      k := ReaderOf(trace[..m], n);
      assert trace[..m][..k] == trace[..k];
    } else {
      k := m;
    }
  }

  lemma ReadsInTurn(trace: seq<Observation>, parse: string -> Option<Ref>, answer: nat -> Option<CachedImage>)
    requires Read(trace, parse, answer)
    ensures ReadInTurn(trace, ActiveRefs(trace), answer)
  {
    forall n | 0 <= n < |ActiveRefs(trace)|
      ensures exists k :: 0 <= k < |trace| && trace[k].ref == Some(ActiveRefs(trace)[n]) && trace[k].hit == answer(n)
    {
      var k := ReaderOf(trace, n);
    }
  }

  ghost predicate TimesPositive(trace: seq<Observation>) {
    forall k :: 0 <= k < |trace| && trace[k].hit.Some? ==> trace[k].hit.value.time > 0
  }

  /** What the variables of the loops hold after part of the containers. */
  ghost predicate Progress(
    e: Exporter, trace: seq<Observation>, st: Scrape, parse: string -> Option<Ref>, answer: nat -> Option<CachedImage>)
  {
    && Consistent(e, trace, st)
    && Read(trace, parse, answer)
    && (ContainersDistinct(trace) ==> NoDuplicates(st.samples))
    && (TimesPositive(trace) ==> IsOldest(trace, st.oldest))
  }

  // ---- Distinct containers ------------------------------------------------------

  ghost predicate SameItem(a: Item, b: Item) {
    a.gvk == b.gvk && a.namespace == b.namespace && a.name == b.name
  }

  /** Kubernetes' promise about a listing: no two objects share kind, namespace and name. */
  ghost predicate ItemsDistinct(all: seq<Work>) {
    forall m, n :: 0 <= m < n < |all| ==> !SameItem(all[m].item, all[n].item)
  }

  lemma PartDistinct(w: Work, part: seq<Observation>)
    requires SafeTable(w.paths) && ItemObserved(w, part)
    ensures ContainersDistinct(part)
  {
    var specs :| Observes(w, part, specs);
    forall k, l | 0 <= k < l < |part|
      ensures !SameContainer(part[k], part[l])
    {
      JsonPathsDistinct(w.item.content, w.paths, specs, k, l);
    }
  }

  lemma {:induction false} FlatItems(all: seq<Work>, parts: seq<seq<Observation>>, k: nat)
    requires Covers(all, parts) && k < |Flat(parts)|
    ensures exists n :: 0 <= n < |all| && Flat(parts)[k].item == all[n].item
  {
    var n := |parts| - 1;
    if k < |Flat(parts[..n])| {
      FlatItems(all[..n], parts[..n], k);
    } else {
      assert ItemObserved(all[n], parts[n]);
    }
  }

  lemma {:induction false} FlatDistinct(all: seq<Work>, parts: seq<seq<Observation>>)
    requires Covers(all, parts) && ItemsDistinct(all)
    requires forall n :: 0 <= n < |all| ==> SafeTable(all[n].paths)
    ensures ContainersDistinct(Flat(parts))
  {
    if parts != [] {
      var n := |parts| - 1;
      var front, last := Flat(parts[..n]), parts[n];
      FlatDistinct(all[..n], parts[..n]);
      assert ItemObserved(all[n], last);
      PartDistinct(all[n], last);
      forall k, l | 0 <= k < |front| && 0 <= l < |last|
        ensures !SameContainer(front[k], last[l])
      {
        FlatItems(all[..n], parts[..n], k);
        var m :| 0 <= m < n && front[k].item == all[m].item;
        assert last[l].item == all[n].item && !SameItem(all[m].item, all[n].item);
      }
    }
  }

  // ---- The loops ------------------------------------------------------------------

  lemma ProgressExtended(
      e: Exporter, trace: seq<Observation>, st: Scrape, o: Observation, st': Scrape,
      parse: string -> Option<Ref>, answer: nat -> Option<CachedImage>)
    requires Progress(e, trace, st, parse, answer) && Consistent(e, trace + [o], st')
    requires NoDuplicates(st.samples) && ContainersDistinct(trace + [o]) ==> NoDuplicates(st'.samples)
    requires IsOldest(trace, st.oldest) && (o.hit.Some? ==> o.hit.value.time > 0) ==> IsOldest(trace + [o], st'.oldest)
    requires o.ref == parse(o.spec.image) && o.hit == if o.ref.Some? then answer(|st.active|) else None
    ensures Progress(e, trace + [o], st', parse, answer)
  {
    var trace' := trace + [o];
    assert forall k :: 0 <= k < |trace| ==> trace'[k] == trace[k] && trace'[..k] == trace[..k];
    assert trace'[|trace|] == o && trace'[..|trace|] == trace;
  }

  /** One container: parse its image, read the cache if that succeeds, and observe. */
  method CollectContainer(
      e: Exporter, item: Item, spec: ContainerSpec, parse: string -> Option<Ref>, answer: nat -> Option<CachedImage>,
      ghost trace: seq<Observation>, st: Scrape)
    returns (st': Scrape, ghost o: Observation)
    requires Progress(e, trace, st, parse, answer)
    ensures o.item == item && o.spec == spec && Progress(e, trace + [o], st', parse, answer)
  {
    var ref := parse(spec.image);
    var hit := if ref.Some? then answer(|st.active|) else None;
    var observed := Observation(item, spec, ref, hit);
    o := observed;
    st' := Observe(e, trace, st, observed);
    ProgressExtended(e, trace, st, o, st', parse, answer);
  }

  /** part records the first k containers of an item, after the given trace. */
  ghost predicate Observing(
    e: Exporter, item: Item, specs: seq<ContainerSpec>, k: nat, trace: seq<Observation>, part: seq<Observation>,
    st: Scrape, parse: string -> Option<Ref>, answer: nat -> Option<CachedImage>)
  {
    && |part| == k <= |specs|
    && (forall l :: 0 <= l < k ==> part[l].item == item && part[l].spec == specs[l])
    && Progress(e, trace + part, st, parse, answer)
  }

  /** The next container of an item. */
  method CollectNext(
      e: Exporter, item: Item, specs: seq<ContainerSpec>, k: nat,
      parse: string -> Option<Ref>, answer: nat -> Option<CachedImage>,
      ghost trace: seq<Observation>, ghost part: seq<Observation>, st: Scrape)
    returns (st': Scrape, ghost part': seq<Observation>)
    requires k < |specs| && Observing(e, item, specs, k, trace, part, st, parse, answer)
    ensures Observing(e, item, specs, k + 1, trace, part', st', parse, answer)
  {
    ghost var o;
    st', o := CollectContainer(e, item, specs[k], parse, answer, trace + part, st);
    part' := part + [o];
    assert trace + part' == trace + part + [o];
  }

  /** The containers of one item, in order. */
  method CollectSpecs(
      e: Exporter, item: Item, specs: seq<ContainerSpec>,
      parse: string -> Option<Ref>, answer: nat -> Option<CachedImage>,
      ghost trace: seq<Observation>, st: Scrape)
    returns (st': Scrape, ghost part: seq<Observation>)
    requires Progress(e, trace, st, parse, answer)
    ensures Observing(e, item, specs, |specs|, trace, part, st', parse, answer)
  {
    st', part := st, [];
    assert trace + part == trace;
    for k := 0 to |specs|
      invariant Observing(e, item, specs, k, trace, part, st', parse, answer)
    {
      st', part := CollectNext(e, item, specs, k, parse, answer, trace, part, st');
    }
  }

  method CollectItem(
      e: Exporter, w: Work, parse: string -> Option<Ref>, answer: nat -> Option<CachedImage>,
      ghost trace: seq<Observation>, st: Scrape)
    returns (st': Scrape, ghost part: seq<Observation>)
    requires w.item.content.Object? && Progress(e, trace, st, parse, answer)
    ensures ItemObserved(w, part) && Progress(e, trace + part, st', parse, answer)
  {
    var specs := ContainerSpecs(w.item.content, w.paths);
    st', part := CollectSpecs(e, w.item, specs, parse, answer, trace, st);
    assert Observes(w, part, specs);
  }

  lemma NothingYet(e: Exporter, parse: string -> Option<Ref>, answer: nat -> Option<CachedImage>)
    ensures Progress(e, [], Scrape([], [], {}, 0), parse, answer)
  {
  }

  lemma CoversNext(all: seq<Work>, n: nat, parts: seq<seq<Observation>>, part: seq<Observation>)
    requires n < |all| && Covers(all[..n], parts) && ItemObserved(all[n], part)
    ensures Covers(all[..n + 1], parts + [part])
  {
    forall m | 0 <= m < n + 1
      ensures ItemObserved(all[..n + 1][m], (parts + [part])[m])
    {
      assert m < n ==> all[..n][m] == all[..n + 1][m];
    }
  }

  method CollectAll(
      e: Exporter, all: seq<Work>, parse: string -> Option<Ref>, answer: nat -> Option<CachedImage>)
    returns (st: Scrape, ghost parts: seq<seq<Observation>>)
    requires forall n :: 0 <= n < |all| ==> all[n].item.content.Object?
    ensures Covers(all, parts) && Progress(e, Flat(parts), st, parse, answer)
  {
    st, parts := Scrape([], [], {}, 0), [];
    NothingYet(e, parse, answer);
    for n := 0 to |all|
      invariant Covers(all[..n], parts)
      invariant Progress(e, Flat(parts), st, parse, answer)
    {
      ghost var part;
      st, part := CollectItem(e, all[n], parse, answer, Flat(parts), st);
      FlatNext(parts, part);
      CoversNext(all, n, parts, part);
      parts := parts + [part];
    }
    assert all[..|all|] == all;
  }

  /** The lists, in order; the first failure ends them. */
  method ListAll(e: Exporter, lists: seq<Option<seq<Item>>>) returns (all: Option<seq<Work>>)
    requires |lists| == |e.resources|
    ensures all.None? <==> exists r :: 0 <= r < |lists| && lists[r].None?
    ensures all.Some? ==> all.value == AllWork(e, lists)
    ensures all.Some? ==> exists src :: ListedInOrder(e, lists, all.value, src)
  {
    var work := [];
    for r := 0 to |lists|
      invariant forall q :: 0 <= q < r ==> lists[q].Some?
      invariant work == AllWork(e, lists[..r])
    {
      if lists[r].None? {
        return None;
      }
      var row := WorkOf(lists[r].value, e.resources[r]);
      assert Rows(e, lists[..r + 1]) == Rows(e, lists[..r]) + [row];
      FlatNext(Rows(e, lists[..r]), row);
      work := work + row;
    }
    assert lists[..|lists|] == lists;
    ghost var src := AllWorkInOrder(e, lists);
    return Some(work);
  }

  function Scalar(desc: Desc, value: int): Sample {
    Sample(Series(desc, []), value)
  }

  /** Everything a complete scrape should emit. */
  ghost predicate Emitted(e: Exporter, trace: seq<Observation>, oldest: int, s: Sample) {
    || s == Scalar(CacheDuration, e.cacheDuration)
    || s == Scalar(OldestEntry, oldest)
    || s == Scalar(Up, 1)
    || CalledFor(e, trace, s)
  }

  /** Everything sent by a complete scrape, in order. */
  function Wrapped(e: Exporter, st: Scrape): seq<Sample> {
    [Scalar(CacheDuration, e.cacheDuration)] + st.samples + [Scalar(OldestEntry, st.oldest), Scalar(Up, 1)]
  }

  lemma WrapKeepsDistinct(e: Exporter, trace: seq<Observation>, st: Scrape)
    requires NoDuplicates(st.samples) && forall s :: s in st.samples ==> CalledFor(e, trace, s)
    ensures NoDuplicates(Wrapped(e, st))
  {
    forall i | 0 <= i < |st.samples|
      ensures st.samples[i].series.desc !in {CacheDuration, OldestEntry, Up}
    {
      assert st.samples[i] in st.samples;
      CalledForShape(e, trace, st.samples[i]);
    }
  }

  lemma WrappedEmits(e: Exporter, trace: seq<Observation>, st: Scrape)
    requires forall s :: s in st.samples <==> CalledFor(e, trace, s)
    ensures forall s :: s in Wrapped(e, st) <==> Emitted(e, trace, st.oldest, s)
  {
  }

  ghost predicate TablesSafe(e: Exporter) {
    forall r :: 0 <= r < |e.resources| ==> SafeTable(e.resources[r])
  }

  lemma ScrapeDistinct(
      e: Exporter, lists: seq<Option<seq<Item>>>, parts: seq<seq<Observation>>, st: Scrape,
      parse: string -> Option<Ref>, answer: nat -> Option<CachedImage>)
    requires |lists| == |e.resources| && TablesSafe(e) && ItemsDistinct(AllWork(e, lists))
    requires Covers(AllWork(e, lists), parts) && Progress(e, Flat(parts), st, parse, answer)
    ensures NoDuplicates(Wrapped(e, st))
  {
    AllWorkPaths(e, lists);
    FlatDistinct(AllWork(e, lists), parts);
    WrapKeepsDistinct(e, Flat(parts), st);
  }

  /** The trace records the containers of every listed item, item by item in listing order. */
  ghost predicate RecordsAll(e: Exporter, lists: seq<Option<seq<Item>>>, trace: seq<Observation>)
    requires |lists| <= |e.resources|
  {
    exists all, src, parts :: ListedInOrder(e, lists, all, src) && Covers(all, parts) && trace == Flat(parts)
  }

  /** One of the lists holds this item, and a path of its kind reaches a container of it with this spec. */
  ghost predicate ListedContainer(e: Exporter, lists: seq<Option<seq<Item>>>, item: Item, spec: ContainerSpec)
    requires |lists| <= |e.resources|
  {
    exists slot :: IsListed(lists, slot) && ContainedIn(e, lists, slot, item, spec)
  }

  ghost predicate ContainedIn(
    e: Exporter, lists: seq<Option<seq<Item>>>, slot: Slot, item: Item, spec: ContainerSpec)
    requires |lists| <= |e.resources| && IsListed(lists, slot)
  {
    item == lists[slot.r].value[slot.i] && Contained(item.content, e.resources[slot.r], spec)
  }

  ghost predicate NamedByListed(
    e: Exporter, lists: seq<Option<seq<Item>>>, parse: string -> Option<Ref>, ref: Ref)
    requires |lists| <= |e.resources|
  {
    exists item, spec :: ListedContainer(e, lists, item, spec) && parse(spec.image) == Some(ref)
  }

  ghost predicate InTrace(trace: seq<Observation>, item: Item, spec: ContainerSpec) {
    exists k :: 0 <= k < |trace| && trace[k].item == item && trace[k].spec == spec
  }

  /** The samples of a complete scrape, descriptor by descriptor. */
  ghost predicate Reported(e: Exporter, trace: seq<Observation>, oldest: int, s: Sample) {
    match s.series.desc
    case Up => s.series.labels == [] && s.value == 1
    case CacheDuration => s.series.labels == [] && s.value == e.cacheDuration
    case OldestEntry => s.series.labels == [] && s.value == oldest
    case _ => ByDescriptor(e, trace, s)
  }

  lemma EmittedIff(e: Exporter, trace: seq<Observation>, oldest: int, s: Sample)
    ensures Emitted(e, trace, oldest, s) <==> Reported(e, trace, oldest, s)
  {
    CalledForIff(e, trace, s);
    assert Scalar(Up, 1) == Sample(Series(Up, []), 1);
  }

  ghost predicate ObjectsListed(lists: seq<Option<seq<Item>>>) {
    forall slot :: IsListed(lists, slot) ==> lists[slot.r].value[slot.i].content.Object?
  }

  /** Kubernetes' promise about its listings: no two objects share kind, namespace and name. */
  ghost predicate ListedItemsDistinct(lists: seq<Option<seq<Item>>>) {
    forall a, b :: IsListed(lists, a) && IsListed(lists, b) && SlotBefore(a, b) ==>
      !SameItem(lists[a.r].value[a.i], lists[b.r].value[b.i])
  }

  /** What the listings promise of the lists holds of the work they make up. */
  lemma WorkAsListed(e: Exporter, lists: seq<Option<seq<Item>>>, all: seq<Work>, src: seq<Slot>)
    requires |lists| <= |e.resources| && ListedInOrder(e, lists, all, src)
    ensures ObjectsListed(lists) ==> forall n :: 0 <= n < |all| ==> all[n].item.content.Object?
    ensures ListedItemsDistinct(lists) ==> ItemsDistinct(all)
  {
  }

  /** One scrape. parse and answer stand for reference parsing and for the
      cache's answers to the successive reads, whatever other goroutines did in
      between; evict is the argument of the final eviction, absent if a list
      failed; trace is what was read of every container. */
  method Collect(
      e: Exporter, lists: seq<Option<seq<Item>>>, parse: string -> Option<Ref>, answer: nat -> Option<CachedImage>)
    returns (samples: seq<Sample>, evict: Option<seq<Ref>>, oldest: int, ghost trace: seq<Observation>)
    requires |lists| == |e.resources| && ObjectsListed(lists)
    ensures evict.None? <==> exists r :: 0 <= r < |lists| && lists[r].None?
    ensures evict.None? ==>
              samples == [Sample(Series(CacheDuration, []), e.cacheDuration), Sample(Series(Up, []), 0)]
    ensures evict.Some? ==>
              && RecordsAll(e, lists, trace)
              && (forall item, spec :: InTrace(trace, item, spec) <==> ListedContainer(e, lists, item, spec))
              && Read(trace, parse, answer)
              && evict.value == ActiveRefs(trace) && ReadInTurn(trace, evict.value, answer)
              && (forall ref :: ref in evict.value <==> NamedByListed(e, lists, parse, ref))
              && (forall s :: s in samples <==> Reported(e, trace, oldest, s))
              && (TimesPositive(trace) ==> IsOldest(trace, oldest))
    ensures TablesSafe(e) && ListedItemsDistinct(lists) ==> NoDuplicates(samples)
  {
    samples, evict, oldest, trace := [Scalar(CacheDuration, e.cacheDuration)], None, 0, [];
    var all := ListAll(e, lists);
    if all.None? {
      samples := samples + [Scalar(Up, 0)];
      return;
    }
    ghost var src := AllWorkInOrder(e, lists);
    WorkAsListed(e, lists, all.value, src);
    var st;
    ghost var parts;
    st, parts := CollectAll(e, all.value, parse, answer);
    trace := Flat(parts);
    oldest := st.oldest;
    if TablesSafe(e) && ListedItemsDistinct(lists) {
      ScrapeDistinct(e, lists, parts, st, parse, answer);
    }
    WrappedReports(e, trace, st);
    samples := samples + st.samples + [Scalar(OldestEntry, oldest), Scalar(Up, 1)];
    assert samples == Wrapped(e, st);
    evict := Some(st.active);
    AllRecorded(e, lists, all.value, src, parts, parse, answer);
    ReadsInTurn(trace, parse, answer);
  }

  lemma WrappedReports(e: Exporter, trace: seq<Observation>, st: Scrape)
    requires forall s :: s in st.samples <==> CalledFor(e, trace, s)
    ensures forall s :: s in Wrapped(e, st) <==> Reported(e, trace, st.oldest, s)
  {
    WrappedEmits(e, trace, st);
    forall s ensures Emitted(e, trace, st.oldest, s) <==> Reported(e, trace, st.oldest, s) {
      EmittedIff(e, trace, st.oldest, s);
    }
  }

  lemma AllRecorded(
      e: Exporter, lists: seq<Option<seq<Item>>>, all: seq<Work>, src: seq<Slot>, parts: seq<seq<Observation>>,
      parse: string -> Option<Ref>, answer: nat -> Option<CachedImage>)
    requires |lists| <= |e.resources| && ObjectsListed(lists) && ListedInOrder(e, lists, all, src)
    requires Covers(all, parts) && Read(Flat(parts), parse, answer)
    ensures RecordsAll(e, lists, Flat(parts))
    ensures forall item, spec :: InTrace(Flat(parts), item, spec) <==> ListedContainer(e, lists, item, spec)
    ensures forall ref :: ref in ActiveRefs(Flat(parts)) <==> NamedByListed(e, lists, parse, ref)
  {
    forall item, spec
      ensures InTrace(Flat(parts), item, spec) <==> ListedContainer(e, lists, item, spec)
    {
      TraceIff(e, lists, all, src, parts, item, spec);
    }
    forall ref
      ensures ref in ActiveRefs(Flat(parts)) <==> NamedByListed(e, lists, parse, ref)
    {
      ListedContainerIsActive(e, lists, Flat(parts), parse, answer, ref);
    }
  }

  lemma AllWorkPaths(e: Exporter, lists: seq<Option<seq<Item>>>)
    requires |lists| <= |e.resources|
    ensures forall n :: 0 <= n < |AllWork(e, lists)| ==> AllWork(e, lists)[n].paths in e.resources
  {
    var src := AllWorkInOrder(e, lists);
  }

  /** The oldest entry is zero exactly when no read hit. */
  lemma OldestZeroIffNoHit(trace: seq<Observation>, oldest: int)
    requires IsOldest(trace, oldest)
    ensures oldest == 0 <==> forall k :: 0 <= k < |trace| ==> trace[k].hit.None?
  {
    if k :| 0 <= k < |trace| && trace[k].hit.Some? {
      HitHasFirst(trace, k);
    }
  }

  // ---- The same reads in the state machine -----------------------------------------

  /** A collector of the state machine after reading the containers of a trace. */
  function ReadThrough(c: Protocol.Collector, trace: seq<Observation>): Protocol.Collector {
    if trace == [] then c
    else
      var n := |trace| - 1;
      var before := ReadThrough(c, trace[..n]);
      if trace[n].ref.Some? then Protocol.AfterRead(before, trace[n].hit) else before
  }

  lemma OldestUnique(trace: seq<Observation>, a: int, b: int)
    requires IsOldest(trace, a) && IsOldest(trace, b)
    ensures a == b
  {
    OldestZeroIffNoHit(trace, a);
    OldestZeroIffNoHit(trace, b);
  }

  /** The collector remembers exactly the digests hit, and the least first-seen time. */
  ghost predicate HasRead(x: Protocol.Collector, trace: seq<Observation>) {
    IsOldest(trace, x.oldest) && SeenAre(trace, x.firstSeen.Keys)
  }

  ghost predicate SeenAre(trace: seq<Observation>, seen: set<string>) {
    forall digest :: digest in seen <==> exists k :: 0 <= k < |trace| && Hits(trace[k], digest)
  }

  lemma HasReadNext(x: Protocol.Collector, trace: seq<Observation>, o: Observation)
    requires HasRead(x, trace) && (o.hit.Some? ==> o.hit.value.time > 0)
    ensures HasRead(Protocol.AfterRead(x, o.hit), trace + [o])
  {
    var x' := Protocol.AfterRead(x, o.hit);
    var first := o.hit.Some? && o.hit.value.image.digest !in x.firstSeen;
    assert x'.firstSeen.Keys == x.firstSeen.Keys + if o.hit.Some? then {o.hit.value.image.digest} else {};
    SeenNext(trace, o, x.firstSeen.Keys, x'.firstSeen.Keys);
    OldestExtended(trace, o, x.oldest, first);
  }

  lemma SeenNext(trace: seq<Observation>, o: Observation, seen: set<string>, seen': set<string>)
    requires SeenAre(trace, seen) && seen' == seen + if o.hit.Some? then {o.hit.value.image.digest} else {}
    ensures SeenAre(trace + [o], seen')
  {
    DigestsExtended(trace, o, seen, seen');
  }

  lemma {:induction false} ReadThroughInv(c: Protocol.Collector, trace: seq<Observation>)
    requires c.firstSeen == map[] && c.oldest == 0 && TimesPositive(trace)
    requires forall k :: 0 <= k < |trace| && trace[k].hit.Some? ==> trace[k].ref.Some?
    ensures HasRead(ReadThrough(c, trace), trace)
  {
    if trace != [] {
      var n := |trace| - 1;
      ReadThroughInv(c, trace[..n]);
      HasReadNext(ReadThrough(c, trace[..n]), trace[..n], trace[n]);
      assert trace[..n] + [trace[n]] == trace;
      if trace[n].ref.None? {
        HasReadSame(ReadThrough(c, trace[..n]), trace[n].hit, trace);
      }
    }
  }

  /** A miss leaves what a collector remembers as it was. */
  lemma HasReadSame(x: Protocol.Collector, hit: Option<CachedImage>, trace: seq<Observation>)
    requires hit.None? && HasRead(Protocol.AfterRead(x, hit), trace)
    ensures HasRead(x, trace)
  {
  }

  /** A scrape and a collector of the state machine that see the same hits agree on the oldest entry. */
  lemma OldestAgreesWithProtocol(c: Protocol.Collector, trace: seq<Observation>, oldest: int)
    requires c.firstSeen == map[] && c.oldest == 0 && TimesPositive(trace)
    requires forall k :: 0 <= k < |trace| && trace[k].hit.Some? ==> trace[k].ref.Some?
    requires IsOldest(trace, oldest)
    ensures ReadThrough(c, trace).oldest == oldest
  {
    ReadThroughInv(c, trace);
    OldestUnique(trace, oldest, ReadThrough(c, trace).oldest);
  }

  lemma {:induction false} ActiveRefsComplete(trace: seq<Observation>, ref: Ref)
    ensures ref in ActiveRefs(trace) <==> exists k :: 0 <= k < |trace| && trace[k].ref == Some(ref)
  {
    if trace != [] {
      var n := |trace| - 1;
      ActiveRefsComplete(trace[..n], ref);
      if k :| 0 <= k < |trace| && trace[k].ref == Some(ref) {
        assert k < n ==> trace[..n][k] == trace[k];
      }
    }
  }

  /** The specs recorded of one item are those of the containers its paths reach. */
  lemma ItemObservedIff(w: Work, part: seq<Observation>, spec: ContainerSpec)
    requires w.item.content.Object? && ItemObserved(w, part)
    ensures InTrace(part, w.item, spec) <==> Contained(w.item.content, w.paths, spec)
  {
    var specs :| Observes(w, part, specs);
    ExtractedIff(w.item.content, w.paths, specs, spec);
    if spec in specs {
      var k :| 0 <= k < |specs| && specs[k] == spec;
      assert part[k].item == w.item && part[k].spec == spec;
    }
  }

  lemma TracedIsListed(
      e: Exporter, lists: seq<Option<seq<Item>>>, all: seq<Work>, src: seq<Slot>, parts: seq<seq<Observation>>,
      item: Item, spec: ContainerSpec)
    requires |lists| <= |e.resources| && ObjectsListed(lists) && ListedInOrder(e, lists, all, src)
    requires Covers(all, parts) && InTrace(Flat(parts), item, spec)
    ensures ListedContainer(e, lists, item, spec)
  {
    var at := FlatEnumerates(parts);
    var k :| 0 <= k < |Flat(parts)| && Flat(parts)[k].item == item && Flat(parts)[k].spec == spec;
    var n, i := at[k].r, at[k].i;
    assert InRows(parts, at[k]) && ItemObserved(all[n], parts[n]);
    assert parts[n][i].item == item && parts[n][i].spec == spec;
    assert all[n].item == item;
    ItemObservedIff(all[n], parts[n], spec);
    assert ContainedIn(e, lists, src[n], item, spec);
  }

  /** What is in one part is in the whole trace. */
  lemma FlatContains(parts: seq<seq<Observation>>, n: nat, item: Item, spec: ContainerSpec)
    requires n < |parts| && InTrace(parts[n], item, spec)
    ensures InTrace(Flat(parts), item, spec)
  {
    var i :| 0 <= i < |parts[n]| && parts[n][i].item == item && parts[n][i].spec == spec;
    var at := FlatEnumerates(parts);
    assert InRows(parts, Slot(n, i));
    var k :| 0 <= k < |at| && at[k] == Slot(n, i);
  }

  lemma ListedIsTraced(
      e: Exporter, lists: seq<Option<seq<Item>>>, all: seq<Work>, src: seq<Slot>, parts: seq<seq<Observation>>,
      item: Item, spec: ContainerSpec)
    requires |lists| <= |e.resources| && ObjectsListed(lists) && ListedInOrder(e, lists, all, src)
    requires Covers(all, parts) && ListedContainer(e, lists, item, spec)
    ensures InTrace(Flat(parts), item, spec)
  {
    var slot :| IsListed(lists, slot) && ContainedIn(e, lists, slot, item, spec);
    var n :| 0 <= n < |src| && src[n] == slot;
    assert ItemObserved(all[n], parts[n]);
    ItemObservedIff(all[n], parts[n], spec);
    FlatContains(parts, n, item, spec);
  }

  /** The containers recorded are exactly those of the listed items. */
  lemma TraceIff(
      e: Exporter, lists: seq<Option<seq<Item>>>, all: seq<Work>, src: seq<Slot>, parts: seq<seq<Observation>>,
      item: Item, spec: ContainerSpec)
    requires |lists| <= |e.resources| && ObjectsListed(lists) && ListedInOrder(e, lists, all, src)
    requires Covers(all, parts)
    ensures InTrace(Flat(parts), item, spec) <==> ListedContainer(e, lists, item, spec)
  {
    if InTrace(Flat(parts), item, spec) {
      TracedIsListed(e, lists, all, src, parts, item, spec);
    }
    if ListedContainer(e, lists, item, spec) {
      ListedIsTraced(e, lists, all, src, parts, item, spec);
    }
  }

  /** The references a scrape keeps alive are exactly those that the images of
      the containers of the listed items parse to. */
  lemma ListedContainerIsActive(
      e: Exporter, lists: seq<Option<seq<Item>>>, trace: seq<Observation>,
      parse: string -> Option<Ref>, answer: nat -> Option<CachedImage>, ref: Ref)
    requires |lists| <= |e.resources| && Read(trace, parse, answer)
    requires forall item, spec :: InTrace(trace, item, spec) <==> ListedContainer(e, lists, item, spec)
    ensures ref in ActiveRefs(trace) <==> NamedByListed(e, lists, parse, ref)
  {
    ActiveRefsComplete(trace, ref);
    if k :| 0 <= k < |trace| && trace[k].ref == Some(ref) {
      assert InTrace(trace, trace[k].item, trace[k].spec);
    }
    if item, spec :| ListedContainer(e, lists, item, spec) && parse(spec.image) == Some(ref) {
      assert InTrace(trace, item, spec);
    }
  }
}
