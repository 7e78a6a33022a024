/** The node exporter's image metrics (gatherImages, collectImages and
    emitImageMetrics in internal/nodeexporter/exporter.go). status stands for
    the runtime's answer about one image identifier; None is an error. */
module NodeImages {
  import opened Options
  import opened LabelValue

  type Text = seq<Byte>

  datatype Container = Container(imageRef: Text, image: Text)
  datatype NodeImage = NodeImage(id: Text, labels: map<Text, Text>, created: Option<int>)

  datatype Desc = ImageLabels | ImageCreated
  datatype Series = Series(desc: Desc, labels: seq<Text>)
  datatype Sample = Sample(series: Series, value: int)

  ghost predicate NoDuplicates(samples: seq<Sample>) {
    forall i, j :: 0 <= i < j < |samples| ==> samples[i].series != samples[j].series
  }

  // ---- Which images are asked for ---------------------------------------------

  /** The reported reference, or the image string when there is none. */
  function RequestedId(c: Container): Text {
    if c.imageRef != [] then c.imageRef else c.image
  }

  /** The identifiers asked for: each nonempty one once, in order of first appearance. */
  function Requested(containers: seq<Container>): (ids: seq<Text>)
    ensures forall i, j :: 0 <= i < j < |ids| ==> ids[i] != ids[j]
    ensures forall id :: id in ids <==>
              id != [] && exists k :: 0 <= k < |containers| && RequestedId(containers[k]) == id
  {
    if containers == [] then []
    else
      var n := |containers| - 1;
      var front, id := Requested(containers[..n]), RequestedId(containers[n]);
      assert forall k :: 0 <= k < n ==> containers[..n][k] == containers[k];
      if id == [] || id in front then front else front + [id]
  }

  /** The images the runtime reports for some identifiers, errors skipped. */
  function Resolved(ids: seq<Text>, status: Text -> Option<NodeImage>): seq<NodeImage> {
    if ids == [] then []
    else
      var n := |ids| - 1;
      Resolved(ids[..n], status) + if status(ids[n]).Some? then [status(ids[n]).value] else []
  }

  lemma RequestedNext(containers: seq<Container>, k: nat)
    requires k < |containers|
    ensures var front, id := Requested(containers[..k]), RequestedId(containers[k]);
            Requested(containers[..k + 1]) == if id == [] || id in front then front else front + [id]
  {
    assert containers[..k + 1][..k] == containers[..k];
  }

  lemma ResolvedNext(ids: seq<Text>, id: Text, status: Text -> Option<NodeImage>)
    ensures Resolved(ids + [id], status) == Resolved(ids, status) + if status(id).Some? then [status(id).value] else []
  {
    assert (ids + [id])[..|ids|] == ids;
  }

  /** The identifier a container's image is asked for by: its reported
      reference, and its image string only if there is none. */
  ghost predicate Wants(c: Container, id: Text) {
    id != [] && (c.imageRef == id || (c.imageRef == [] && c.image == id))
  }

  /** ids are the identifiers wanted, each once, in the order of the containers
      that want them first: src[m] is the first container that wants ids[m]. */
  ghost predicate AsksFor(containers: seq<Container>, ids: seq<Text>, src: seq<nat>) {
    && |src| == |ids|
    && (forall m, n :: 0 <= m < n < |src| ==> src[m] < src[n])
    && (forall m :: 0 <= m < |src| ==> src[m] < |containers| && Wants(containers[src[m]], ids[m]))
    && (forall m, k :: 0 <= m < |src| && 0 <= k < src[m] && k < |containers| ==> !Wants(containers[k], ids[m]))
    && (forall k, id :: 0 <= k < |containers| && Wants(containers[k], id) ==> id in ids)
  }

  lemma WantsIff(c: Container, id: Text)
    ensures Wants(c, id) <==> id != [] && id == RequestedId(c)
  {
  }

  /** One more container that wants nothing new. */
  lemma AsksForSame(front: seq<Container>, c: Container, ids: seq<Text>, src: seq<nat>)
    requires AsksFor(front, ids, src) && forall id :: Wants(c, id) ==> id in ids
    ensures AsksFor(front + [c], ids, src)
  {
  }

  /** One more container that wants a new identifier. */
  lemma AsksForNew(front: seq<Container>, c: Container, ids: seq<Text>, src: seq<nat>, id: Text)
    requires AsksFor(front, ids, src) && id !in ids && forall x :: Wants(c, x) <==> x == id
    ensures AsksFor(front + [c], ids + [id], src + [|front|])
  {
    var all := front + [c];
    forall k | 0 <= k < |front|
      ensures !Wants(all[k], id)
    {
      assert Wants(front[k], id) ==> id in ids;
    }
  }

  lemma {:induction false} RequestedInOrder(containers: seq<Container>) returns (src: seq<nat>)
    ensures AsksFor(containers, Requested(containers), src)
  {
    src := [];
    if containers != [] {
      var n := |containers| - 1;
      var front, c := containers[..n], containers[n];
      var before := RequestedInOrder(front);
      assert front + [c] == containers;
      forall x ensures Wants(c, x) <==> x != [] && x == RequestedId(c) {
        WantsIff(c, x);
      }
      if RequestedId(c) == [] || RequestedId(c) in Requested(front) {
        AsksForSame(front, c, Requested(front), before);
        src := before;
      } else {
        AsksForNew(front, c, Requested(front), before, RequestedId(c));
        src := before + [n];
      }
    }
  }

  /** images are those the runtime reports for the identifiers, in their order, the errors left out. */
  ghost predicate ResolvesTo(
    ids: seq<Text>, status: Text -> Option<NodeImage>, images: seq<NodeImage>, src: seq<nat>)
  {
    && |src| == |images|
    && (forall m, n :: 0 <= m < n < |src| ==> src[m] < src[n])
    && (forall m :: 0 <= m < |src| ==> src[m] < |ids| && status(ids[src[m]]) == Some(images[m]))
    && (forall i :: 0 <= i < |ids| && status(ids[i]).Some? ==> i in src)
  }

  lemma ResolvesToNext(
      ids: seq<Text>, id: Text, status: Text -> Option<NodeImage>, images: seq<NodeImage>, src: seq<nat>)
    requires ResolvesTo(ids, status, images, src)
    ensures status(id).None? ==> ResolvesTo(ids + [id], status, images, src)
    ensures status(id).Some? ==> ResolvesTo(ids + [id], status, images + [status(id).value], src + [|ids|])
  {
    var src' := src + [|ids|];
    assert src'[|src|] == |ids|;
    forall i | 0 <= i < |ids| && status(ids[i]).Some?
      ensures i in src && i in src'
    {
      var m :| 0 <= m < |src| && src[m] == i;
      assert src'[m] == i;
    }
  }

  lemma {:induction false} ResolvedInOrder(ids: seq<Text>, status: Text -> Option<NodeImage>) returns (src: seq<nat>)
    ensures ResolvesTo(ids, status, Resolved(ids, status), src)
  {
    src := [];
    if ids != [] {
      var n := |ids| - 1;
      var front := ResolvedInOrder(ids[..n], status);
      ResolvesToNext(ids[..n], ids[n], status, Resolved(ids[..n], status), front);
      ResolvedNext(ids[..n], ids[n], status);
      assert ids[..n] + [ids[n]] == ids && |ids[..n]| == n;
      src := if status(ids[n]).Some? then front + [n] else front;
    }
  }

  /** The images gathered, said without reference to how. */
  ghost predicate Gathers(containers: seq<Container>, status: Text -> Option<NodeImage>, images: seq<NodeImage>) {
    exists ids, asked, got :: AsksFor(containers, ids, asked) && ResolvesTo(ids, status, images, got)
  }

  method GatherInUse(containers: seq<Container>, status: Text -> Option<NodeImage>) returns (images: seq<NodeImage>)
    ensures images == Resolved(Requested(containers), status)
    ensures Gathers(containers, status, images)
  {
    ghost var asked := RequestedInOrder(containers);
    ghost var got := ResolvedInOrder(Requested(containers), status);
    var seen: set<Text> := {};
    images := [];
    for k := 0 to |containers|
      invariant forall id :: id in seen <==> id in Requested(containers[..k])
      invariant images == Resolved(Requested(containers[..k]), status)
    {
      RequestedNext(containers, k);
      var id := containers[k].imageRef;
      if id == [] {
        id := containers[k].image;
      }
      if id == [] || id in seen {
        continue;
      }
      seen := seen + {id};
      ResolvedNext(Requested(containers[..k]), id, status);
      var image := status(id);
      if image.None? {
        continue;
      }
      images := images + [image.value];
    }
    assert containers[..|containers|] == containers;
  }

  // ---- What is emitted -----------------------------------------------------------

  predicate IsAllowed(allowlist: seq<Text>, key: Text) {
    allowlist == [] || key in allowlist
  }

  function CreatedSample(image: NodeImage): Sample
    requires image.created.Some?
  {
    Sample(Series(ImageCreated, [image.id]), image.created.value)
  }

  function LabelSample(image: NodeImage, key: Text): Sample
    requires key in image.labels
  {
    Sample(Series(ImageLabels, [image.id, key, Truncated(image.labels[key])]), 1)
  }

  /** s reports something about the image: its creation time or an allowed label, capped. */
  ghost predicate ImageSample(image: NodeImage, allowlist: seq<Text>, s: Sample) {
    image.id != [] &&
    ( || (image.created.Some? && s == CreatedSample(image))
      || exists key :: key in image.labels && IsAllowed(allowlist, key) && s == LabelSample(image, key))
  }

  /** The same, descriptor by descriptor. */
  ghost predicate ByDescriptor(image: NodeImage, allowlist: seq<Text>, s: Sample) {
    var labels := s.series.labels;
    && image.id != []
    && match s.series.desc
       case ImageCreated => labels == [image.id] && image.created == Some(s.value)
       case ImageLabels =>
         && s.value == 1 && |labels| == 3 && labels[0] == image.id && labels[1] in image.labels
         && (|allowlist| == 0 || exists i :: 0 <= i < |allowlist| && allowlist[i] == labels[1])
         && labels[2] == Truncated(image.labels[labels[1]])
  }

  lemma ImageSampleIff(image: NodeImage, allowlist: seq<Text>, s: Sample)
    ensures ImageSample(image, allowlist, s) <==> ByDescriptor(image, allowlist, s)
  {
    var labels := s.series.labels;
    if ByDescriptor(image, allowlist, s) && s.series.desc == ImageLabels {
      assert IsAllowed(allowlist, labels[1]) && labels == [image.id, labels[1], labels[2]];
      assert s == LabelSample(image, labels[1]);
    }
    if key :| key in image.labels && IsAllowed(allowlist, key) && s == LabelSample(image, key) {
      assert labels[1] == key;
    }
  }

  method EmitImageMetrics(image: NodeImage, allowlist: seq<Text>) returns (samples: seq<Sample>)
    ensures NoDuplicates(samples)
    ensures forall s :: s in samples <==> ImageSample(image, allowlist, s)
    ensures forall s :: s in samples <==> ByDescriptor(image, allowlist, s)
  {
    forall s ensures ImageSample(image, allowlist, s) <==> ByDescriptor(image, allowlist, s) {
      ImageSampleIff(image, allowlist, s);
    }
    samples := [];
    if image.id == [] {
      return;
    }
    if image.created.Some? {
      samples := [CreatedSample(image)];
    }
    var todo := image.labels.Keys;
    while todo != {}
      invariant todo <= image.labels.Keys
      invariant NoDuplicates(samples)
      invariant forall s :: s in samples <==>
          || (image.created.Some? && s == CreatedSample(image))
          || exists key :: key in image.labels && key !in todo && IsAllowed(allowlist, key) &&
               s == LabelSample(image, key)
      decreases todo
    {
      var key :| key in todo;
      todo := todo - {key};
      if IsAllowed(allowlist, key) {
        var s := LabelSample(image, key);
        forall i | 0 <= i < |samples|
          ensures samples[i].series != s.series
        {
          assert samples[i] in samples;
        }
        samples := samples + [s];
      }
    }
  }

  ghost predicate Reported(images: seq<NodeImage>, allowlist: seq<Text>, s: Sample) {
    exists n :: 0 <= n < |images| && ImageSample(images[n], allowlist, s)
  }

  /** Two of the images report something under one series. */
  ghost predicate ShareSeries(a: NodeImage, b: NodeImage, allowlist: seq<Text>) {
    exists s, t :: ImageSample(a, allowlist, s) && ImageSample(b, allowlist, t) && s.series == t.series
  }

  /** Both images are reported, under one identifier, with a creation time each
      or with one allowed label whose capped values agree. */
  ghost predicate ReportAlike(a: NodeImage, b: NodeImage, allowlist: seq<Text>) {
    && a.id == b.id && a.id != []
    && ((a.created.Some? && b.created.Some?) || exists key :: LabelledAlike(a, b, key, allowlist))
  }

  predicate LabelledAlike(a: NodeImage, b: NodeImage, key: Text, allowlist: seq<Text>) {
    && key in a.labels && key in b.labels && IsAllowed(allowlist, key)
    && Truncated(a.labels[key]) == Truncated(b.labels[key])
  }

  /** Reporting alike is exactly sharing a series. */
  lemma ShareSeriesIff(a: NodeImage, b: NodeImage, allowlist: seq<Text>)
    ensures ShareSeries(a, b, allowlist) <==> ReportAlike(a, b, allowlist)
  {
    if s, t :| ImageSample(a, allowlist, s) && ImageSample(b, allowlist, t) && s.series == t.series {
      assert s.series.labels[0] == a.id && t.series.labels[0] == b.id;
      if s.series.desc == ImageLabels {
        var key := s.series.labels[1];
        assert key == t.series.labels[1] && s.series.labels[2] == t.series.labels[2];
        assert LabelledAlike(a, b, key, allowlist);
      }
    }
    if ReportAlike(a, b, allowlist) {
      if a.created.Some? && b.created.Some? {
        assert ImageSample(a, allowlist, CreatedSample(a)) && ImageSample(b, allowlist, CreatedSample(b));
      } else {
        var key :| LabelledAlike(a, b, key, allowlist);
        assert ImageSample(a, allowlist, LabelSample(a, key)) && ImageSample(b, allowlist, LabelSample(b, key));
      }
    }
  }

  /** Two of the images report alike. */
  ghost predicate Clash(images: seq<NodeImage>, allowlist: seq<Text>) {
    exists m, n :: 0 <= m < n < |images| && ReportAlike(images[m], images[n], allowlist)
  }

  /** The samples of all the images; series repeat exactly when two images report alike. */
  method CollectImages(images: seq<NodeImage>, allowlist: seq<Text>) returns (samples: seq<Sample>)
    ensures forall s :: s in samples <==> Reported(images, allowlist, s)
    ensures NoDuplicates(samples) <==> !Clash(images, allowlist)
  {
    samples := [];
    for n := 0 to |images|
      invariant forall s :: s in samples <==> Reported(images[..n], allowlist, s)
      invariant NoDuplicates(samples) <==> !Clash(images[..n], allowlist)
    {
      var more := EmitImageMetrics(images[n], allowlist);
      ReportedExtended(images, n, allowlist);
      ClashExtended(images, n, allowlist);
      DuplicatesExtended(images[..n], images[n], allowlist, samples, more);
      samples := samples + more;
    }
    assert images[..|images|] == images;
  }

  lemma ClashExtended(images: seq<NodeImage>, n: nat, allowlist: seq<Text>)
    requires n < |images|
    ensures Clash(images[..n + 1], allowlist) <==>
              Clash(images[..n], allowlist) || exists m :: 0 <= m < n && ReportAlike(images[m], images[n], allowlist)
  {
    var now, before := images[..n + 1], images[..n];
    assert forall k :: 0 <= k < n ==> now[k] == before[k] == images[k];
    if m, k :| 0 <= m < k < |before| && ReportAlike(before[m], before[k], allowlist) {
      assert ReportAlike(now[m], now[k], allowlist);
    }
    if m :| 0 <= m < n && ReportAlike(images[m], images[n], allowlist) {
      assert ReportAlike(now[m], now[n], allowlist);
    }
  }

  lemma DuplicatesExtended(
      images: seq<NodeImage>, image: NodeImage, allowlist: seq<Text>, samples: seq<Sample>, more: seq<Sample>)
    requires forall s :: s in samples <==> Reported(images, allowlist, s)
    requires NoDuplicates(more) && forall s :: s in more <==> ImageSample(image, allowlist, s)
    ensures NoDuplicates(samples + more) <==>
              NoDuplicates(samples) && !exists m :: 0 <= m < |images| && ReportAlike(images[m], image, allowlist)
  {
    var all := samples + more;
    if m :| 0 <= m < |images| && ReportAlike(images[m], image, allowlist) {
      ShareSeriesIff(images[m], image, allowlist);
      var s, t :| ImageSample(images[m], allowlist, s) && ImageSample(image, allowlist, t) && s.series == t.series;
      assert s in samples && t in more;
      var i :| 0 <= i < |samples| && samples[i] == s;
      var j :| 0 <= j < |more| && more[j] == t;
      assert all[i].series == all[|samples| + j].series;
    } else {
      forall i, j | 0 <= i < |samples| && 0 <= j < |more|
        ensures samples[i].series != more[j].series
      {
        assert samples[i] in samples && more[j] in more;
        var m :| 0 <= m < |images| && ImageSample(images[m], allowlist, samples[i]);
        ShareSeriesIff(images[m], image, allowlist);
      }
    }
    if i, j :| 0 <= i < j < |samples| && samples[i].series == samples[j].series {
      assert all[i].series == all[j].series;
    }
    assert forall i :: 0 <= i < |samples| ==> all[i] == samples[i];
  }

  lemma ReportedExtended(images: seq<NodeImage>, n: nat, allowlist: seq<Text>)
    requires n < |images|
    ensures forall s :: Reported(images[..n + 1], allowlist, s) <==>
              Reported(images[..n], allowlist, s) || ImageSample(images[n], allowlist, s)
  {
    assert forall k :: 0 <= k < n ==> images[..n + 1][k] == images[..n][k] == images[k];
    forall s | ImageSample(images[n], allowlist, s)
      ensures Reported(images[..n + 1], allowlist, s)
    {
      assert images[..n + 1][n] == images[n];
    }
    forall s | Reported(images[..n], allowlist, s)
      ensures Reported(images[..n + 1], allowlist, s)
    {
      var k :| 0 <= k < n && ImageSample(images[..n][k], allowlist, s);
      assert images[..n + 1][k] == images[..n][k];
    }
  }

  // ---- De-duplication by requested identifier -------------------------------------

  /** Two identifiers resolve to images that report alike. */
  ghost predicate Aliases(status: Text -> Option<NodeImage>, x: Text, y: Text, allowlist: seq<Text>) {
    status(x).Some? && status(y).Some? && ReportAlike(status(x).value, status(y).value, allowlist)
  }

  ghost predicate AnyAliases(ids: seq<Text>, status: Text -> Option<NodeImage>, allowlist: seq<Text>) {
    exists i, j :: 0 <= i < j < |ids| && Aliases(status, ids[i], ids[j], allowlist)
  }

  lemma {:induction false} ResolvedContains(ids: seq<Text>, status: Text -> Option<NodeImage>, image: NodeImage)
    ensures image in Resolved(ids, status) <==> exists i :: 0 <= i < |ids| && status(ids[i]) == Some(image)
  {
    if ids != [] {
      var n := |ids| - 1;
      ResolvedContains(ids[..n], status, image);
      assert forall i :: 0 <= i < n ==> ids[..n][i] == ids[i];
    }
  }

  lemma AnyAliasesExtended(ids: seq<Text>, n: nat, status: Text -> Option<NodeImage>, allowlist: seq<Text>)
    requires n == |ids| - 1
    ensures AnyAliases(ids, status, allowlist) <==>
              || AnyAliases(ids[..n], status, allowlist)
              || exists i :: 0 <= i < n && Aliases(status, ids[i], ids[n], allowlist)
  {
    assert forall i :: 0 <= i < n ==> ids[..n][i] == ids[i];
    if i, j :| 0 <= i < j < n && Aliases(status, ids[..n][i], ids[..n][j], allowlist) {
      assert Aliases(status, ids[i], ids[j], allowlist);
    }
  }

  /** Whether the last image clashes with an earlier one. */
  lemma LastClashes(ids: seq<Text>, n: nat, status: Text -> Option<NodeImage>, allowlist: seq<Text>)
    requires n == |ids| - 1 && status(ids[n]).Some?
    ensures var front, image := Resolved(ids[..n], status), status(ids[n]).value;
            (exists m :: 0 <= m < |front| && ReportAlike(front[m], image, allowlist)) <==>
              exists i :: 0 <= i < n && Aliases(status, ids[i], ids[n], allowlist)
  {
    var front, image := Resolved(ids[..n], status), status(ids[n]).value;
    if m :| 0 <= m < |front| && ReportAlike(front[m], image, allowlist) {
      ResolvedContains(ids[..n], status, front[m]);
      var i :| 0 <= i < n && status(ids[..n][i]) == Some(front[m]);
      assert Aliases(status, ids[i], ids[n], allowlist);
    }
    if i :| 0 <= i < n && Aliases(status, ids[i], ids[n], allowlist) {
      assert ids[..n][i] == ids[i];
      ResolvedContains(ids[..n], status, status(ids[i]).value);
      var m :| 0 <= m < |front| && front[m] == status(ids[i]).value;
    }
  }

  /** The images gathered for some identifiers clash exactly when two of the identifiers are aliases. */
  lemma {:induction false} ClashIffAliases(ids: seq<Text>, status: Text -> Option<NodeImage>, allowlist: seq<Text>)
    ensures Clash(Resolved(ids, status), allowlist) <==> AnyAliases(ids, status, allowlist)
  {
    if ids != [] {
      var n := |ids| - 1;
      ClashIffAliases(ids[..n], status, allowlist);
      AnyAliasesExtended(ids, n, status, allowlist);
      var front, all := Resolved(ids[..n], status), Resolved(ids, status);
      if status(ids[n]).Some? {
        LastClashes(ids, n, status, allowlist);
        ClashExtended(all, |front|, allowlist);
        assert all[..|front|] == front && all[..|front| + 1] == all && all[|front|] == status(ids[n]).value;
      } else {
        assert all == front;
      }
    }
  }

  /** A scrape of the images in use. A series repeats exactly when two different
      requested identifiers resolve to images of one nonempty identifier that
      both have a creation time, or an allowed label with one capped value. */
  method CollectInUse(containers: seq<Container>, status: Text -> Option<NodeImage>, allowlist: seq<Text>)
    returns (samples: seq<Sample>)
    ensures forall s :: s in samples <==> Reported(Resolved(Requested(containers), status), allowlist, s)
    ensures NoDuplicates(samples) <==> !AnyAliases(Requested(containers), status, allowlist)
  {
    var images := GatherInUse(containers, status);
    ClashIffAliases(Requested(containers), status, allowlist);
    samples := CollectImages(images, allowlist);
  }

  /** Distinct identifiers resolve to images with distinct identifiers. */
  ghost predicate ResolvesApart(status: Text -> Option<NodeImage>, ids: seq<Text>) {
    forall i, j :: 0 <= i < j < |ids| && status(ids[i]).Some? && status(ids[j]).Some? ==>
      status(ids[i]).value.id != status(ids[j]).value.id || status(ids[i]).value.id == []
  }

  /** In particular, series are unique when the runtime keeps requested identifiers apart. */
  lemma InUseSeriesUnique(containers: seq<Container>, status: Text -> Option<NodeImage>, allowlist: seq<Text>)
    requires ResolvesApart(status, Requested(containers))
    ensures !Clash(Resolved(Requested(containers), status), allowlist)
  {
    ClashIffAliases(Requested(containers), status, allowlist);
  }

  lemma TwoRequested(a: Container, b: Container)
    requires RequestedId(a) != RequestedId(b) && RequestedId(a) != [] && RequestedId(b) != []
    ensures Requested([a, b]) == [RequestedId(a), RequestedId(b)]
  {
    RequestedNext([a, b], 0);
    RequestedNext([a, b], 1);
    assert [a, b][..2] == [a, b];
  }

  lemma TwoResolved(x: Text, y: Text, image: NodeImage, status: Text -> Option<NodeImage>)
    requires status(x) == status(y) == Some(image)
    ensures Resolved([x, y], status) == [image, image]
  {
    ResolvedNext([], x, status);
    ResolvedNext([x], y, status);
    assert [] + [x] == [x] && [x] + [y] == [x, y];
  }

  /** Two containers whose different identifiers name one image: the image is
      gathered twice, and series repeat exactly if it reports anything. */
  lemma AliasesGatherTwice(
      a: Container, b: Container, image: NodeImage, status: Text -> Option<NodeImage>, allowlist: seq<Text>)
    requires RequestedId(a) != RequestedId(b) && RequestedId(a) != [] && RequestedId(b) != []
    requires status(RequestedId(a)) == status(RequestedId(b)) == Some(image)
    ensures Resolved(Requested([a, b]), status) == [image, image]
    ensures Clash([image, image], allowlist) <==>
              image.id != [] && (image.created.Some? || exists key :: key in image.labels && IsAllowed(allowlist, key))
  {
    TwoRequested(a, b);
    TwoResolved(RequestedId(a), RequestedId(b), image, status);
    var images := [image, image];
    assert Clash(images, allowlist) <==> ReportAlike(images[0], images[1], allowlist);
    if key :| key in image.labels && IsAllowed(allowlist, key) {
      assert LabelledAlike(image, image, key, allowlist);
    }
  }
}
