/** One scrape of the cluster exporter (Exporter.Collect in
    internal/clusterexporter/metrics.go). Other goroutines may change the cache
    between any two reads, so the answers to the reads are arbitrary inputs. */
module Metrics {
  import opened Options
  import opened References
  import opened ImageCache
  import opened Json
  import opened Extraction

  datatype Gvk = Gvk(group: string, version: string, kind: string)
  datatype Item = Item(gvk: Gvk, namespace: string, name: string, content: Json)

  datatype Desc = Up | ContainerInfo | Annotation | Label | SizeBytes | Created | OldestEntry | CacheDuration
  datatype Series = Series(desc: Desc, labels: seq<string>)
  datatype Sample = Sample(series: Series, value: int)

  datatype Exporter = Exporter(
    resources: seq<seq<seq<string>>>,
    cacheDuration: int,
    annotationAllowlist: seq<string>,
    labelAllowlist: seq<string>)

  /** What one container contributed: its reference, if it parses, and the cache's answer. */
  datatype Observation = Observation(item: Item, spec: ContainerSpec, ref: Option<Ref>, hit: Option<CachedImage>)

  /** No two samples share a descriptor and label values. */
  ghost predicate NoDuplicates(samples: seq<Sample>) {
    forall i, j :: 0 <= i < j < |samples| ==> samples[i].series != samples[j].series
  }

  // ---- What a scrape should emit ------------------------------------------------

  predicate IsAllowed(allowlist: seq<string>, key: string) {
    allowlist == [] || key in allowlist
  }

  function InfoSample(o: Observation): Sample {
    Sample(
      Series(ContainerInfo, [
        o.item.gvk.group, o.item.gvk.version, o.item.gvk.kind, o.item.namespace, o.item.name,
        o.spec.jsonPath, o.spec.image, if o.hit.Some? then o.hit.value.image.digest else ""]),
      1)
  }

  /** s reports one allowed entry of m. */
  ghost predicate EntrySample(desc: Desc, digest: string, m: map<string, string>, allowlist: seq<string>, s: Sample) {
    exists key :: key in m && IsAllowed(allowlist, key) && s == Sample(Series(desc, [digest, key, m[key]]), 1)
  }

  ghost predicate ImageSample(e: Exporter, image: Image, s: Sample) {
    || s == Sample(Series(SizeBytes, [image.digest]), image.size)
    || s == Sample(Series(Created, [image.digest]), image.created)
    || EntrySample(Annotation, image.digest, image.annotations, e.annotationAllowlist, s)
    || EntrySample(Label, image.digest, image.labels, e.labelAllowlist, s)
  }

  predicate Hits(o: Observation, digest: string) {
    o.hit.Some? && o.hit.value.image.digest == digest
  }

  /** The k-th container is the first whose read hit its digest. */
  ghost predicate FirstHit(trace: seq<Observation>, k: nat)
    requires k < |trace|
  {
    && trace[k].hit.Some?
    && forall l :: 0 <= l < k ==> !Hits(trace[l], trace[k].hit.value.image.digest)
  }

  /** s is called for by the k-th container. */
  ghost predicate CalledForBy(e: Exporter, trace: seq<Observation>, k: nat, s: Sample)
    requires k < |trace|
  {
    s == InfoSample(trace[k]) || (FirstHit(trace, k) && ImageSample(e, trace[k].hit.value.image, s))
  }

  ghost predicate CalledFor(e: Exporter, trace: seq<Observation>, s: Sample) {
    exists k :: 0 <= k < |trace| && CalledForBy(e, trace, k, s)
  }

  function ActiveRefs(trace: seq<Observation>): seq<Ref> {
    if trace == [] then []
    else
      var last := trace[|trace| - 1];
      ActiveRefs(trace[..|trace| - 1]) + if last.ref.Some? then [last.ref.value] else []
  }

  /** oldest is the least first-seen time, and 0 when nothing was hit. */
  ghost predicate IsOldest(trace: seq<Observation>, oldest: int) {
    && ((forall k :: 0 <= k < |trace| ==> trace[k].hit.None?) ==> oldest == 0)
    && (forall k :: 0 <= k < |trace| && FirstHit(trace, k) ==> 0 < oldest <= trace[k].hit.value.time)
    && (oldest != 0 ==> exists k :: 0 <= k < |trace| && FirstHit(trace, k) && trace[k].hit.value.time == oldest)
  }

  /** The container's identity among all containers of a scrape. */
  ghost predicate SameContainer(a: Observation, b: Observation) {
    && a.item.gvk == b.item.gvk && a.item.namespace == b.item.namespace && a.item.name == b.item.name
    && a.spec.jsonPath == b.spec.jsonPath
  }

  ghost predicate ContainersDistinct(trace: seq<Observation>) {
    forall k, l :: 0 <= k < l < |trace| ==> !SameContainer(trace[k], trace[l])
  }

  // ---- The same, descriptor by descriptor -----------------------------------------

  /** The labels of a container's info. Without a hit the digest is empty. */
  ghost predicate InfoLabels(o: Observation, labels: seq<string>) {
    && |labels| == 8
    && labels[0] == o.item.gvk.group && labels[1] == o.item.gvk.version && labels[2] == o.item.gvk.kind
    && labels[3] == o.item.namespace && labels[4] == o.item.name
    && labels[5] == o.spec.jsonPath && labels[6] == o.spec.image
    && match o.hit case Some(entry) => labels[7] == entry.image.digest case None => labels[7] == ""
  }

  /** The labels of one entry of a map that the allowlist lets through. */
  ghost predicate EntryLabels(digest: string, m: map<string, string>, allowlist: seq<string>, labels: seq<string>) {
    && |labels| == 3 && labels[0] == digest
    && labels[1] in m && labels[2] == m[labels[1]]
    && (|allowlist| == 0 || exists i :: 0 <= i < |allowlist| && allowlist[i] == labels[1])
  }

  /** The image a container was the first to hit. */
  ghost predicate FirstImage(trace: seq<Observation>, k: nat, image: Image) {
    && k < |trace| && trace[k].hit.Some? && trace[k].hit.value.image == image
    && forall l :: 0 <= l < k && trace[l].hit.Some? ==> trace[l].hit.value.image.digest != image.digest
  }

  /** What an image is reported with. */
  ghost predicate ImageByDescriptor(e: Exporter, image: Image, s: Sample) {
    var labels := s.series.labels;
    match s.series.desc
    case SizeBytes => labels == [image.digest] && s.value == image.size
    case Created => labels == [image.digest] && s.value == image.created
    case Annotation => s.value == 1 && EntryLabels(image.digest, image.annotations, e.annotationAllowlist, labels)
    case Label => s.value == 1 && EntryLabels(image.digest, image.labels, e.labelAllowlist, labels)
    case _ => false
  }

  ghost predicate ByDescriptor(e: Exporter, trace: seq<Observation>, s: Sample) {
    match s.series.desc
    case ContainerInfo => s.value == 1 && exists k :: 0 <= k < |trace| && InfoLabels(trace[k], s.series.labels)
    case _ => exists k: nat, image :: FirstImage(trace, k, image) && ImageByDescriptor(e, image, s)
  }

  lemma InfoSampleIff(o: Observation, s: Sample)
    ensures s == InfoSample(o) <==> s.series.desc == ContainerInfo && s.value == 1 && InfoLabels(o, s.series.labels)
  {
  }

  lemma EntrySampleIff(desc: Desc, digest: string, m: map<string, string>, allowlist: seq<string>, s: Sample)
    ensures EntrySample(desc, digest, m, allowlist, s) <==>
              s.series.desc == desc && s.value == 1 && EntryLabels(digest, m, allowlist, s.series.labels)
  {
    var labels := s.series.labels;
    if EntryLabels(digest, m, allowlist, labels) {
      assert labels == [digest, labels[1], m[labels[1]]];
      assert IsAllowed(allowlist, labels[1]);
    }
    if EntrySample(desc, digest, m, allowlist, s) {
      var key :| key in m && IsAllowed(allowlist, key) && s == Sample(Series(desc, [digest, key, m[key]]), 1);
      assert labels[1] == key;
    }
  }

  lemma ImageSampleIff(e: Exporter, image: Image, s: Sample)
    ensures ImageSample(e, image, s) <==> ImageByDescriptor(e, image, s)
  {
    EntrySampleIff(Annotation, image.digest, image.annotations, e.annotationAllowlist, s);
    EntrySampleIff(Label, image.digest, image.labels, e.labelAllowlist, s);
  }

  lemma FirstHitIsFirstImage(trace: seq<Observation>, k: nat)
    requires k < |trace| && trace[k].hit.Some?
    ensures FirstHit(trace, k) <==> FirstImage(trace, k, trace[k].hit.value.image)
  {
    assert FirstHit(trace, k) ==> forall l :: 0 <= l < k ==> !Hits(trace[l], trace[k].hit.value.image.digest);
  }

  lemma CalledForIsByDescriptor(e: Exporter, trace: seq<Observation>, s: Sample)
    requires CalledFor(e, trace, s)
    ensures ByDescriptor(e, trace, s)
  {
    var k :| 0 <= k < |trace| && CalledForBy(e, trace, k, s);
    if s == InfoSample(trace[k]) {
      InfoSampleIff(trace[k], s);
    } else {
      FirstHitIsFirstImage(trace, k);
      ImageSampleIff(e, trace[k].hit.value.image, s);
      assert FirstImage(trace, k, trace[k].hit.value.image);
    }
  }

  lemma ByImageIsCalledFor(e: Exporter, trace: seq<Observation>, s: Sample, k: nat, image: Image)
    requires FirstImage(trace, k, image) && ImageByDescriptor(e, image, s)
    ensures CalledFor(e, trace, s)
  {
    FirstHitIsFirstImage(trace, k);
    ImageSampleIff(e, image, s);
    assert CalledForBy(e, trace, k, s);
  }

  /** The samples called for, read off the fields of the containers and images. */
  lemma CalledForIff(e: Exporter, trace: seq<Observation>, s: Sample)
    ensures CalledFor(e, trace, s) <==> ByDescriptor(e, trace, s)
  {
    if CalledFor(e, trace, s) {
      CalledForIsByDescriptor(e, trace, s);
    }
    if ByDescriptor(e, trace, s) {
      if s.series.desc == ContainerInfo {
        var k :| 0 <= k < |trace| && InfoLabels(trace[k], s.series.labels);
        InfoSampleIff(trace[k], s);
        assert CalledForBy(e, trace, k, s);
      } else {
        var k: nat, image :| FirstImage(trace, k, image) && ImageByDescriptor(e, image, s);
        ByImageIsCalledFor(e, trace, s, k, image);
      }
    }
  }

  /** Each container whose image parses takes one place among the active references, in order. */
  lemma {:induction false} ActiveRefsAt(trace: seq<Observation>, k: nat)
    requires k < |trace|
    ensures var n := |ActiveRefs(trace[..k])|;
            if trace[k].ref.Some? then
              && n < |ActiveRefs(trace)| && ActiveRefs(trace)[n] == trace[k].ref.value
              && |ActiveRefs(trace[..k + 1])| == n + 1
            else
              |ActiveRefs(trace[..k + 1])| == n
  {
    var m := |trace| - 1;
    assert trace[..k + 1][..k] == trace[..k];
    if k < m {
      assert trace[..m][..k] == trace[..k] && trace[..m][..k + 1] == trace[..k + 1];
      ActiveRefsAt(trace[..m], k);
    } else {
      assert trace[..k + 1] == trace;
    }
  }

  // ---- The allowlist ---------------------------------------------------------------

  method Allowed(allowlist: seq<string>, key: string) returns (ok: bool)
    ensures ok <==> IsAllowed(allowlist, key)
    ensures ok <==> allowlist == [] || exists i :: 0 <= i < |allowlist| && allowlist[i] == key
  {
    if |allowlist| == 0 {
      return true;
    }
    for i := 0 to |allowlist|
      invariant key !in allowlist[..i]
    {
      if allowlist[i] == key {
        return true;
      }
    }
    return false;
  }

  /** One loop over a map of an image, whose order is not chosen here. */
  method EmitEntries(desc: Desc, digest: string, m: map<string, string>, allowlist: seq<string>)
    returns (samples: seq<Sample>)
    ensures NoDuplicates(samples)
    ensures forall s :: s in samples <==> EntrySample(desc, digest, m, allowlist, s)
  {
    samples := [];
    var todo := m.Keys;
    while todo != {}
      invariant todo <= m.Keys
      invariant NoDuplicates(samples)
      invariant forall s :: s in samples <==>
          exists key :: key in m && key !in todo && IsAllowed(allowlist, key) &&
            s == Sample(Series(desc, [digest, key, m[key]]), 1)
      decreases todo
    {
      var key :| key in todo;
      todo := todo - {key};
      var ok := Allowed(allowlist, key);
      if ok {
        var s := Sample(Series(desc, [digest, key, m[key]]), 1);
        forall i | 0 <= i < |samples|
          ensures samples[i].series != s.series
        {
          assert samples[i] in samples;
        }
        samples := samples + [s];
      }
    }
  }

  // ---- One container -------------------------------------------------------------------

  /** The variables a scrape carries from container to container. */
  datatype Scrape = Scrape(samples: seq<Sample>, active: seq<Ref>, digests: set<string>, oldest: int)

  ghost predicate Consistent(e: Exporter, trace: seq<Observation>, st: Scrape) {
    && (forall s :: s in st.samples <==> CalledFor(e, trace, s))
    && (forall digest :: digest in st.digests <==> exists k :: 0 <= k < |trace| && Hits(trace[k], digest))
    && st.active == ActiveRefs(trace)
  }

  lemma FirstHitExtended(trace: seq<Observation>, o: Observation, k: nat)
    requires k < |trace|
    ensures FirstHit(trace + [o], k) == FirstHit(trace, k)
  {
    assert forall l :: 0 <= l <= k ==> (trace + [o])[l] == trace[l];
  }

  lemma CalledForExtended(e: Exporter, trace: seq<Observation>, o: Observation, s: Sample)
    ensures CalledFor(e, trace + [o], s) <==> CalledFor(e, trace, s) || CalledForBy(e, trace + [o], |trace|, s)
  {
    forall k | 0 <= k < |trace|
      ensures CalledForBy(e, trace + [o], k, s) == CalledForBy(e, trace, k, s)
    {
      FirstHitExtended(trace, o, k);
    }
    if CalledFor(e, trace, s) {
      var k :| 0 <= k < |trace| && CalledForBy(e, trace, k, s);
      assert CalledForBy(e, trace + [o], k, s);
    }
  }

  /** A called-for sample is a container's info or labelled first by a digest that was hit. */
  lemma CalledForShape(e: Exporter, trace: seq<Observation>, s: Sample)
    requires CalledFor(e, trace, s)
    ensures || (exists k :: 0 <= k < |trace| && s == InfoSample(trace[k]))
            || (s.series.desc in {SizeBytes, Created, Annotation, Label} && s.series.labels != [] &&
                exists k :: 0 <= k < |trace| && Hits(trace[k], s.series.labels[0]))
  {
    var k :| 0 <= k < |trace| && CalledForBy(e, trace, k, s);
    if s != InfoSample(trace[k]) {
      assert Hits(trace[k], s.series.labels[0]);
    }
  }

  lemma InfoSeriesDistinct(a: Observation, b: Observation)
    requires !SameContainer(a, b)
    ensures InfoSample(a).series != InfoSample(b).series
  {
    var x, y := InfoSample(a).series.labels, InfoSample(b).series.labels;
    assert x[0] != y[0] || x[1] != y[1] || x[2] != y[2] || x[3] != y[3] || x[4] != y[4] || x[5] != y[5];
  }

  /** A distinct container's info repeats no series already emitted. */
  lemma InfoIsNew(e: Exporter, trace: seq<Observation>, o: Observation, samples: seq<Sample>)
    requires ContainersDistinct(trace + [o])
    requires NoDuplicates(samples) && forall s :: s in samples ==> CalledFor(e, trace, s)
    ensures NoDuplicates(samples + [InfoSample(o)])
  {
    forall i | 0 <= i < |samples|
      ensures samples[i].series != InfoSample(o).series
    {
      assert samples[i] in samples;
      CalledForShape(e, trace, samples[i]);
      if k :| 0 <= k < |trace| && samples[i] == InfoSample(trace[k]) {
        assert !SameContainer((trace + [o])[k], (trace + [o])[|trace|]);
        InfoSeriesDistinct(trace[k], o);
      }
    }
  }

  /** The samples of an image not hit before, in the order they are sent. */
  method EmitImage(e: Exporter, image: Image) returns (samples: seq<Sample>)
    ensures NoDuplicates(samples)
    ensures forall s :: s in samples <==> ImageSample(e, image, s)
    ensures forall s :: s in samples <==> ImageByDescriptor(e, image, s)
  {
    var annotations := EmitEntries(Annotation, image.digest, image.annotations, e.annotationAllowlist);
    var labels := EmitEntries(Label, image.digest, image.labels, e.labelAllowlist);
    var size := Sample(Series(SizeBytes, [image.digest]), image.size);
    var created := Sample(Series(Created, [image.digest]), image.created);
    forall i | 0 <= i < |annotations| ensures annotations[i].series.desc == Annotation {
      assert annotations[i] in annotations;
    }
    forall i | 0 <= i < |labels| ensures labels[i].series.desc == Label {
      assert labels[i] in labels;
    }
    samples := [size, created] + annotations + labels;
    forall s ensures ImageSample(e, image, s) <==> ImageByDescriptor(e, image, s) {
      ImageSampleIff(e, image, s);
    }
  }

  lemma ImageIsNew(e: Exporter, trace: seq<Observation>, o: Observation, samples: seq<Sample>, more: seq<Sample>)
    requires o.hit.Some? && forall k :: 0 <= k < |trace| ==> !Hits(trace[k], o.hit.value.image.digest)
    requires NoDuplicates(samples) && NoDuplicates(more)
    requires forall s :: s in samples ==> CalledFor(e, trace, s) || s == InfoSample(o)
    requires forall s :: s in more ==> ImageSample(e, o.hit.value.image, s)
    ensures NoDuplicates(samples + more)
  {
    forall i, j | 0 <= i < |samples| && 0 <= j < |more|
      ensures samples[i].series != more[j].series
    {
      assert samples[i] in samples && more[j] in more;
      assert more[j].series.labels[0] == o.hit.value.image.digest && more[j].series.desc != ContainerInfo;
      if samples[i] != InfoSample(o) {
        CalledForShape(e, trace, samples[i]);
      }
    }
  }

  lemma DigestsExtended(trace: seq<Observation>, o: Observation, digests: set<string>, digests': set<string>)
    requires forall digest :: digest in digests <==> exists k :: 0 <= k < |trace| && Hits(trace[k], digest)
    requires digests' == digests + if o.hit.Some? then {o.hit.value.image.digest} else {}
    ensures forall digest :: digest in digests' <==>
              exists k :: 0 <= k < |trace + [o]| && Hits((trace + [o])[k], digest)
  {
    var trace' := trace + [o];
    assert trace'[|trace|] == o;
    forall digest | digest in digests'
      ensures exists k :: 0 <= k < |trace'| && Hits(trace'[k], digest)
    {
      if digest in digests {
        var k :| 0 <= k < |trace| && Hits(trace[k], digest);
        assert Hits(trace'[k], digest);
      } else {
        assert Hits(trace'[|trace|], digest);
      }
    }
  }

  /** The samples stay those called for, whether or not the container is a first hit. */
  lemma SamplesExtended(
      e: Exporter, trace: seq<Observation>, o: Observation, samples: seq<Sample>, first: bool, more: seq<Sample>)
    requires forall s :: s in samples <==> CalledFor(e, trace, s)
    requires first <==> o.hit.Some? && forall k :: 0 <= k < |trace| ==> !Hits(trace[k], o.hit.value.image.digest)
    requires first ==> forall s :: s in more <==> ImageSample(e, o.hit.value.image, s)
    requires !first ==> more == []
    ensures forall s :: s in samples + [InfoSample(o)] + more <==> CalledFor(e, trace + [o], s)
  {
    var trace' := trace + [o];
    assert trace'[|trace|] == o && forall k :: 0 <= k < |trace| ==> trace'[k] == trace[k];
    assert FirstHit(trace', |trace|) <==> first;
    forall s ensures s in samples + [InfoSample(o)] + more <==> CalledFor(e, trace', s) {
      CalledForExtended(e, trace, o, s);
    }
  }

  lemma ActiveExtended(trace: seq<Observation>, o: Observation)
    ensures ActiveRefs(trace + [o]) == ActiveRefs(trace) + if o.ref.Some? then [o.ref.value] else []
  {
    assert (trace + [o])[..|trace|] == trace;
  }

  /** The oldest entry after one more container. */
  lemma OldestExtended(trace: seq<Observation>, o: Observation, oldest: int, first: bool)
    requires IsOldest(trace, oldest)
    requires o.hit.Some? ==> o.hit.value.time > 0
    requires first <==> o.hit.Some? && forall k :: 0 <= k < |trace| ==> !Hits(trace[k], o.hit.value.image.digest)
    ensures var oldest' := if first && (oldest == 0 || o.hit.value.time < oldest) then o.hit.value.time else oldest;
            IsOldest(trace + [o], oldest')
  {
    var trace' := trace + [o];
    var oldest' := if first && (oldest == 0 || o.hit.value.time < oldest) then o.hit.value.time else oldest;
    assert trace'[|trace|] == o && forall k :: 0 <= k < |trace| ==> trace'[k] == trace[k];
    assert FirstHit(trace', |trace|) <==> first;
    forall k | 0 <= k < |trace| ensures FirstHit(trace', k) == FirstHit(trace, k) {
      FirstHitExtended(trace, o, k);
    }
    if oldest != 0 && oldest' == oldest {
      var k :| 0 <= k < |trace| && FirstHit(trace, k) && trace[k].hit.value.time == oldest;
      assert FirstHit(trace', k) && trace'[k].hit.value.time == oldest;
    }
  }

  /** If anything was hit, something was hit first. */
  lemma {:induction false} HitHasFirst(trace: seq<Observation>, k: nat)
    requires k < |trace| && trace[k].hit.Some?
    ensures exists l :: 0 <= l <= k && FirstHit(trace, l) && Hits(trace[k], trace[l].hit.value.image.digest)
  {
    if !FirstHit(trace, k) {
      var l :| 0 <= l < k && Hits(trace[l], trace[k].hit.value.image.digest);
      HitHasFirst(trace, l);
    }
  }

  /** The body of the innermost loop. */
  method Observe(e: Exporter, ghost trace: seq<Observation>, st: Scrape, o: Observation) returns (st': Scrape)
    requires Consistent(e, trace, st)
    ensures Consistent(e, trace + [o], st')
    ensures NoDuplicates(st.samples) && ContainersDistinct(trace + [o]) ==> NoDuplicates(st'.samples)
    ensures IsOldest(trace, st.oldest) && (o.hit.Some? ==> o.hit.value.time > 0) ==> IsOldest(trace + [o], st'.oldest)
  {
    ghost var first := o.hit.Some? && o.hit.value.image.digest !in st.digests;
    ActiveExtended(trace, o);
    if NoDuplicates(st.samples) && ContainersDistinct(trace + [o]) {
      InfoIsNew(e, trace, o, st.samples);
    }
    if IsOldest(trace, st.oldest) && (o.hit.Some? ==> o.hit.value.time > 0) {
      OldestExtended(trace, o, st.oldest, first);
    }
    st' := st.(
      samples := st.samples + [InfoSample(o)],
      active := st.active + if o.ref.Some? then [o.ref.value] else []);
    if o.hit.None? || o.hit.value.image.digest in st.digests {
      SamplesExtended(e, trace, o, st.samples, first, []);
      assert st'.samples == st.samples + [InfoSample(o)] + [];
      DigestsExtended(trace, o, st.digests, st'.digests);
      return;
    }
    var image, time := o.hit.value.image, o.hit.value.time;
    var more := EmitImage(e, image);
    SamplesExtended(e, trace, o, st.samples, first, more);
    if NoDuplicates(st'.samples) {
      ImageIsNew(e, trace, o, st'.samples, more);
    }
    st' := st'.(
      samples := st'.samples + more,
      digests := st'.digests + {image.digest},
      oldest := if st.oldest == 0 || time < st.oldest then time else st.oldest);
    DigestsExtended(trace, o, st.digests, st'.digests);
  }
}
