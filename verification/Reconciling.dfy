/** One reconcile and one getImage call, run on their own
    (internal/clusterexporter/reconciler.go). What other goroutines do to the
    cache in between is the subject of Protocol; here the cache is the class. */
module Reconciling {
  import opened Options
  import opened References
  import opened ImageCache
  import opened Extraction
  import Protocol

  datatype ImageError = BadReference | Expired | FetchFailed
  datatype ImageResult = GotImage(image: Image) | GotError(error: ImageError)

  /** getImage: the lookup, the guard as written, then the fetch. registry is
      what the registry would answer; checkedAt and storedAt are the clock
      readings of the guard and of the store. */
  method GetImage(
      cache: ContainerImageCache, cacheDuration: int, parsed: Option<Ref>, registry: Option<Image>,
      checkedAt: int, storedAt: int)
    returns (r: ImageResult)
    modifies cache
    ensures parsed.None? ==> r == GotError(BadReference) && cache.Value() == old(cache.Value())
    ensures parsed.Some? ==>
              match Protocol.AfterCheck(
                Protocol.Config(0, cacheDuration, false), checkedAt, Lookup(old(cache.Value()), parsed.value))
              case Returned(FromCache(entry, _)) => r == GotImage(entry.image) && cache.Value() == old(cache.Value())
              case Returned(_) => r == GotError(Expired) && cache.Value() == old(cache.Value())
              case _ =>
                if registry.None? then r == GotError(FetchFailed) && cache.Value() == old(cache.Value())
                else r == GotImage(registry.value) &&
                     cache.Value() == Stored(old(cache.Value()), parsed.value, registry.value, storedAt)
  {
    if parsed.None? {
      return GotError(BadReference);
    }
    var found := cache.Get(parsed.value);
    if found.Some? && checkedAt < found.value.time + cacheDuration {
      return GotImage(found.value.image);
    }
    if !found.None? {
      return GotError(Expired);
    }
    if registry.None? {
      return GotError(FetchFailed);
    }
    cache.Put(parsed.value, registry, storedAt);
    return GotImage(registry.value);
  }

  // ---- Jitter ---------------------------------------------------------------------

  const INT64_MIN := -0x8000_0000_0000_0000
  const INT64_LIMIT := 0x8000_0000_0000_0000

  /** Two's complement wrap-around of a 64-bit sum. */
  function Wrap64(n: int): (r: int)
    ensures INT64_MIN <= r < INT64_LIMIT
    ensures exists turns :: n - r == turns * 0x1_0000_0000_0000_0000
  {
    assert n - ((n - INT64_MIN) % 0x1_0000_0000_0000_0000 + INT64_MIN) ==
           (n - INT64_MIN) / 0x1_0000_0000_0000_0000 * 0x1_0000_0000_0000_0000;
    (n - INT64_MIN) % 0x1_0000_0000_0000_0000 + INT64_MIN
  }

  datatype Delay = After(d: int) | Panics

  /** r extends d by a draw below a sixth of it, in 64 bits. */
  ghost predicate Jittered(d: int, jitter: int, r: Delay) {
    0 <= jitter < d / 6 && r == After(Wrap64(d + jitter))
  }

  /** addJitter. A sixth of a duration of 1 to 5 nanoseconds is 0, and a draw below 0 panics. */
  method AddJitter(d: int) returns (r: Delay)
    requires INT64_MIN <= d < INT64_LIMIT
    ensures d <= 0 ==> r == After(d)
    ensures 1 <= d <= 5 <==> r.Panics?
    ensures d >= 6 ==> exists jitter :: Jittered(d, jitter, r)
    ensures d >= 6 && d + d / 6 <= INT64_LIMIT ==> d <= r.d < d + d / 6
  {
    if d <= 0 {
      return After(d);
    }
    var maxJitter := d / 6;
    if maxJitter <= 0 {
      return Panics;
    }
    var jitter :| 0 <= jitter < maxJitter;
    r := After(Wrap64(d + jitter));
    assert Jittered(d, jitter, r);
  }

  // ---- Reconcile --------------------------------------------------------------------

  /** The images of the containers, each once, in order of first appearance. */
  function DistinctImages(specs: seq<ContainerSpec>): (images: seq<string>)
    ensures forall i, j :: 0 <= i < j < |images| ==> images[i] != images[j]
    ensures forall image :: image in images <==> exists k :: 0 <= k < |specs| && specs[k].image == image
  {
    if specs == [] then []
    else
      var n := |specs| - 1;
      var front := DistinctImages(specs[..n]);
      assert forall k :: 0 <= k < n ==> specs[..n][k] == specs[k];
      if specs[n].image in front then front else front + [specs[n].image]
  }

  datatype Outcome =
    | Requeue(delay: int)
    | Failed(errors: seq<(string, ImageError)>)
    | Panicked

  function Failure(image: string, result: ImageResult): seq<(string, ImageError)> {
    if result.GotError? then [(image, result.error)] else []
  }

  /** The failures among the calls, in order. */
  function Failures(images: seq<string>, results: seq<ImageResult>): seq<(string, ImageError)>
    requires |results| >= |images|
  {
    if images == [] then []
    else
      var n := |images| - 1;
      Failures(images[..n], results) + Failure(images[n], results[n])
  }

  lemma FailuresNext(images: seq<string>, image: string, results: seq<ImageResult>)
    requires |results| > |images|
    ensures Failures(images + [image], results) == Failures(images, results) + Failure(image, results[|images|])
  {
    assert (images + [image])[..|images|] == images;
  }

  lemma {:induction false} NoFailures(images: seq<string>, results: seq<ImageResult>)
    requires |results| >= |images|
    ensures Failures(images, results) == [] <==> forall k :: 0 <= k < |images| ==> results[k].GotImage?
  {
    if images != [] {
      NoFailures(images[..|images| - 1], results);
    }
  }

  lemma DistinctImagesNext(specs: seq<ContainerSpec>, k: nat)
    requires k < |specs|
    ensures var front, image := DistinctImages(specs[..k]), specs[k].image;
            DistinctImages(specs[..k + 1]) == if image in front then front else front + [image]
  {
    assert specs[..k + 1][..k] == specs[..k];
  }

  lemma {:induction false} DistinctImagesGrow(specs: seq<ContainerSpec>, k: nat)
    requires k <= |specs|
    ensures |DistinctImages(specs[..k])| <= |DistinctImages(specs)|
    decreases |specs| - k
  {
    if k < |specs| {
      DistinctImagesNext(specs, k);
      DistinctImagesGrow(specs, k + 1);
    } else {
      assert specs[..k] == specs;
    }
  }

  /** calls are the images of the containers, each at its first appearance:
      src[m] is the first container of calls[m]. */
  ghost predicate FirstAppearances(specs: seq<ContainerSpec>, calls: seq<string>, src: seq<nat>) {
    && |src| == |calls|
    && (forall m, n :: 0 <= m < n < |src| ==> src[m] < src[n])
    && (forall m :: 0 <= m < |src| ==> src[m] < |specs| && specs[src[m]].image == calls[m])
    && (forall m, k :: 0 <= m < |src| && 0 <= k < src[m] && k < |specs| ==> specs[k].image != calls[m])
    && (forall k :: 0 <= k < |specs| ==> specs[k].image in calls)
  }

  lemma AppearsAgain(front: seq<ContainerSpec>, spec: ContainerSpec, calls: seq<string>, src: seq<nat>)
    requires FirstAppearances(front, calls, src) && spec.image in calls
    ensures FirstAppearances(front + [spec], calls, src)
  {
  }

  lemma AppearsFirst(front: seq<ContainerSpec>, spec: ContainerSpec, calls: seq<string>, src: seq<nat>)
    requires FirstAppearances(front, calls, src) && spec.image !in calls
    ensures FirstAppearances(front + [spec], calls + [spec.image], src + [|front|])
  {
    var all := front + [spec];
    forall k | 0 <= k < |front|
      ensures all[k].image != spec.image
    {
      assert front[k].image in calls;
    }
  }

  lemma {:induction false} DistinctInOrder(specs: seq<ContainerSpec>) returns (src: seq<nat>)
    ensures FirstAppearances(specs, DistinctImages(specs), src)
  {
    src := [];
    if specs != [] {
      var n := |specs| - 1;
      var front := specs[..n];
      var before := DistinctInOrder(front);
      assert front + [specs[n]] == specs;
      if specs[n].image in DistinctImages(front) {
        AppearsAgain(front, specs[n], DistinctImages(front), before);
        src := before;
      } else {
        AppearsFirst(front, specs[n], DistinctImages(front), before);
        src := before + [n];
      }
    }
  }

  /** errs are the failed calls with their images and errors, in the order of the calls. */
  ghost predicate CollectsFailures(
    calls: seq<string>, results: seq<ImageResult>, errs: seq<(string, ImageError)>, src: seq<nat>)
    requires |results| >= |calls|
  {
    && |src| == |errs|
    && (forall m, n :: 0 <= m < n < |src| ==> src[m] < src[n])
    && (forall m :: 0 <= m < |src| ==>
        && src[m] < |calls|
        && results[src[m]] == GotError(errs[m].1) && errs[m].0 == calls[src[m]])
    && (forall k :: 0 <= k < |calls| && results[k].GotError? ==> k in src)
  }

  lemma CollectsFailuresNext(
      calls: seq<string>, call: string, results: seq<ImageResult>, errs: seq<(string, ImageError)>, src: seq<nat>)
    requires |results| > |calls| && CollectsFailures(calls, results, errs, src)
    ensures var result := results[|calls|];
            if result.GotError?
            then CollectsFailures(calls + [call], results, errs + [(call, result.error)], src + [|calls|])
            else CollectsFailures(calls + [call], results, errs, src)
  {
    var src' := src + [|calls|];
    assert src'[|src|] == |calls|;
    forall k | 0 <= k < |calls| && results[k].GotError?
      ensures k in src && k in src'
    {
      var m :| 0 <= m < |src| && src[m] == k;
      assert src'[m] == k;
    }
  }

  lemma {:induction false} FailuresInOrder(calls: seq<string>, results: seq<ImageResult>) returns (src: seq<nat>)
    requires |results| >= |calls|
    ensures CollectsFailures(calls, results, Failures(calls, results), src)
  {
    src := [];
    if calls != [] {
      var n := |calls| - 1;
      var front := FailuresInOrder(calls[..n], results);
      CollectsFailuresNext(calls[..n], calls[n], results, Failures(calls[..n], results), front);
      assert calls[..n] + [calls[n]] == calls;
      src := if results[n].GotError? then front + [n] else front;
    }
  }

  /** The calls of a reconcile: one per distinct image, all of them made whatever fails. */
  method CallAll(specs: seq<ContainerSpec>, results: seq<ImageResult>)
    returns (calls: seq<string>, errs: seq<(string, ImageError)>)
    requires |results| >= |DistinctImages(specs)|
    ensures calls == DistinctImages(specs) && errs == Failures(calls, results)
    ensures exists src :: FirstAppearances(specs, calls, src)
    ensures exists src :: CollectsFailures(calls, results, errs, src)
  {
    ghost var first := DistinctInOrder(specs);
    ghost var failed := FailuresInOrder(DistinctImages(specs), results);
    var seen: set<string> := {};
    calls, errs := [], [];
    for k := 0 to |specs|
      invariant calls == DistinctImages(specs[..k]) && |calls| <= |DistinctImages(specs)|
      invariant forall image :: image in seen <==> image in calls
      invariant errs == Failures(calls, results)
    {
      DistinctImagesNext(specs, k);
      DistinctImagesGrow(specs, k + 1);
      var image := specs[k].image;
      if image in seen {
        continue;
      }
      seen := seen + {image};
      FailuresNext(calls, image, results);
      var result := results[|calls|];
      calls := calls + [image];
      if result.GotError? {
        errs := errs + [(image, result.error)];
      }
    }
    assert specs[..|specs|] == specs;
  }

  /** Reconcile, once the object is read. results holds the outcome of each
      getImage call in turn; calls lists the images called for. The delay is
      drawn before the failures are looked at. */
  method Reconcile(specs: seq<ContainerSpec>, cacheDuration: int, results: seq<ImageResult>)
    returns (calls: seq<string>, outcome: Outcome)
    requires INT64_MIN <= cacheDuration < INT64_LIMIT && |results| >= |DistinctImages(specs)|
    ensures calls == DistinctImages(specs)
    ensures outcome.Panicked? <==> 1 <= cacheDuration <= 5
    ensures exists src :: FirstAppearances(specs, calls, src)
    ensures outcome.Failed? ==> exists src :: CollectsFailures(calls, results, outcome.errors, src)
    ensures !outcome.Panicked? ==> (outcome.Requeue? <==> forall k :: 0 <= k < |calls| ==> results[k].GotImage?)
    ensures outcome.Requeue? && cacheDuration <= 0 ==> outcome.delay == cacheDuration
    ensures outcome.Requeue? && cacheDuration > 0 && cacheDuration + cacheDuration / 6 <= INT64_LIMIT ==>
              cacheDuration <= outcome.delay < cacheDuration + cacheDuration / 6
  {
    var errs;
    calls, errs := CallAll(specs, results);
    NoFailures(calls, results);
    var d := AddJitter(cacheDuration);
    if d.Panics? {
      return calls, Panicked;
    }
    if |errs| > 0 {
      return calls, Failed(errs);
    }
    return calls, Requeue(d.d);
  }
}
