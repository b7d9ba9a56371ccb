/**
 * The stream-join processor: volume samples (tagged `image`, from ceph) and
 * VM samples (tagged `vm`, from openstack, listing their volumes in a
 * `|`-separated `volumes` tag) are cached, and each arrival triggers one
 * attempt to build a composite record: the VM's own sample followed by the
 * fields and tags of each of its volumes, namespaced `ceph/<volume>/`.
 *
 * The functions below specify one arrival on the two caches as values; the
 * class `SyncSampleProcessor` holds the caches and implements the arrival
 * with the Go code's loops, each method proved equal to its function.
 */
module MetSync {
  import opened Wrappers
  import opened GoStrings
  import opened Bitflow

  /** A cached (header, sample) pair. */
  datatype DataSamples = DataSamples(header: Header, sample: Sample)

  /** The two errors a merge attempt can report. */
  datatype MergeError = EmptyStruct | VolumeNotFound
  {
    function Message(): string
    {
      match this
      case EmptyStruct => "can't merge an empty struct"
      case VolumeNotFound => "no such volume found in ceph"
    }
  }

  /** A record together with the error returned beside it (None: nil). */
  datatype MergeResult = MergeResult(record: DataSamples, err: Option<MergeError>)

  /** The caches after one arrival, the record forwarded and the error. */
  datatype Outcome = Outcome(
    ceph: map<string, DataSamples>,
    openStack: map<string, DataSamples>,
    merged: DataSamples,
    err: Option<MergeError>)

  /** An entry without fields, values or tags and with the zero timestamp. */
  predicate IsEmptyEntry(d: DataSamples)
  {
    d.header.fields == [] && d.sample.values == [] && d.sample.time == 0 && d.sample.tags == map[]
  }

  /** newSample(): the empty entry every merge attempt starts from. */
  function NewSample(): (d: DataSamples)
    ensures IsEmptyEntry(d)
    ensures forall e :: IsEmptyEntry(e) ==> e == d
  {
    DataSamples(Header([]), Sample([], 0, map[]))
  }

  /** setValues: the cached entry holds its own copy of the arriving record. */
  function SetValues(sample: Sample, header: Header): DataSamples
  {
    DataSamples(header, sample)
  }

  /** Enough values for every field: what mergeAll's indexing needs. */
  predicate WellFormed(d: DataSamples)
  {
    |d.sample.values| >= |d.header.fields|
  }

  predicate CacheWellFormed(cache: map<string, DataSamples>)
  {
    forall k :: k in cache ==> WellFormed(cache[k])
  }

  /** Exactly one value per field. */
  predicate Parity(d: DataSamples)
  {
    |d.sample.values| == |d.header.fields|
  }

  /** What the processor asks of an arriving volume sample. */
  predicate Admissible(sample: Sample, header: Header)
  {
    "image" in sample.tags ==> |sample.values| >= |header.fields|
  }

  /** The namespace under which a volume's fields and tags are merged. */
  function CephPrefix(image: string): string
  {
    "ceph/" + image + "/"
  }

  /** A volume whose cached entry can be merged. */
  predicate Available(ceph: map<string, DataSamples>, image: string)
  {
    image in ceph && ceph[image] != NewSample() && |ceph[image].sample.values| > 0
  }

  /** The record after one volume's entry `v` has been folded in. */
  function Folded(merged: DataSamples, image: string, v: DataSamples): DataSamples
    requires WellFormed(v)
  {
    var n := |v.header.fields|;
    DataSamples(
      Header(merged.header.fields + Prefixed(CephPrefix(image), v.header.fields)),
      merged.sample.(values := merged.sample.values + v.sample.values[..n],
                     tags := merged.sample.tags + PrefixedTags(CephPrefix(image), v.sample.tags)))
  }

  /** mergeAll: fold the cached volume `image` into `merged`, or report it missing. */
  function MergeAllSpec(merged: DataSamples, image: string, ceph: map<string, DataSamples>): MergeResult
    requires CacheWellFormed(ceph)
  {
    if image !in ceph || ceph[image] == NewSample() then MergeResult(merged, Some(VolumeNotFound))
    else if |ceph[image].sample.values| == 0 then MergeResult(merged, Some(VolumeNotFound))
    else MergeResult(Folded(merged, image, ceph[image]), None)
  }

  /** The loop of samplesMerge: mergeAll for each volume, stopping at the first error. */
  function MergeVolumes(merged: DataSamples, vols: seq<string>, ceph: map<string, DataSamples>): MergeResult
    requires CacheWellFormed(ceph)
    decreases |vols|
  {
    if vols == [] then MergeResult(merged, None)
    else
      var step := MergeAllSpec(merged, vols[0], ceph);
      if step.err.Some? then step else MergeVolumes(step.record, vols[1..], ceph)
  }

  /**
   * samplesMerge: the VM entry cached under the first `|`-separated element of
   * `image` is the base; each volume its own `volumes` tag lists is folded in.
   */
  function SamplesMergeSpec(image: string, openStack: map<string, DataSamples>, ceph: map<string, DataSamples>): MergeResult
    requires CacheWellFormed(ceph)
  {
    var key := Split(image, '|')[0];
    if key !in openStack || openStack[key] == NewSample() then MergeResult(NewSample(), Some(EmptyStruct))
    else MergeVolumes(openStack[key], Split(Tag(openStack[key].sample.tags, "volumes"), '|'), ceph)
  }

  /** The VM cache with the entry `d` stored under each of `keys`. */
  function StoreUnder(cache: map<string, DataSamples>, keys: seq<string>, d: DataSamples): map<string, DataSamples>
  {
    cache + map k | k in keys :: d
  }

  lemma StoreUnderStep(cache: map<string, DataSamples>, keys: seq<string>, i: nat, d: DataSamples)
    requires i < |keys|
    ensures StoreUnder(cache, keys[..i + 1], d) == StoreUnder(cache, keys[..i], d)[keys[i] := d]
  {
    assert keys[..i + 1] == keys[..i] + [keys[i]];
  }

  /** synchronizeSamples: one arrival, from the caches before to the outcome. */
  function Synchronize(ceph: map<string, DataSamples>, openStack: map<string, DataSamples>,
                       sample: Sample, header: Header): Outcome
    requires CacheWellFormed(ceph) && Admissible(sample, header)
  {
    if "image" in sample.tags then
      var image := sample.tags["image"];
      if image !in ceph || sample.time != ceph[image].sample.time then
        var ceph' := ceph[image := SetValues(sample, header)];
        var r := SamplesMergeSpec(image, openStack, ceph');
        Outcome(ceph', openStack, r.record, r.err)
      else
        Outcome(ceph, openStack, NewSample(), None)
    else if "vm" in sample.tags then
      var vol := Tag(sample.tags, "volumes");
      var openStack' := StoreUnder(openStack, Split(vol, '|'), SetValues(sample, header));
      var r := SamplesMergeSpec(vol, openStack', ceph);
      Outcome(ceph, openStack', r.record, r.err)
    else
      Outcome(ceph, openStack, NewSample(), None)
  }

  /** Whether the progress line is logged before processing sample number `generated`. */
  predicate ShouldLog(printModulo: int, generated: nat)
  {
    printModulo > 0 && generated % printModulo == 0
  }

  class SyncSampleProcessor {
    var printModulo: int
    var cephSamples: map<string, DataSamples>
    var openStackSamples: map<string, DataSamples>
    var samplesGenerated: nat

    /** Every cached volume entry has a value for each of its fields. */
    ghost predicate Valid()
      reads this
    {
      CacheWellFormed(cephSamples)
    }

    /** As the pipeline step is registered: both maps allocated and empty. */
    constructor (printModulo: int)
      ensures Valid()
      ensures this.printModulo == printModulo && samplesGenerated == 0
      ensures cephSamples == map[] && openStackSamples == map[]
    {
      this.printModulo := printModulo;
      cephSamples := map[];
      openStackSamples := map[];
      samplesGenerated := 0;
    }

    /**
     * Sample: log progress every printModulo-th sample, run the merge attempt, count
     * the sample and forward the record that came out, whether or not the
     * attempt reported an error.
     */
    method Sample(sample: Bitflow.Sample, header: Header) returns (forwarded: DataSamples, logged: bool)
      requires Valid() && Admissible(sample, header)
      modifies this
      ensures Valid()
      ensures logged == ShouldLog(old(printModulo), old(samplesGenerated))
      ensures samplesGenerated == old(samplesGenerated) + 1 && printModulo == old(printModulo)
      ensures var o := Synchronize(old(cephSamples), old(openStackSamples), sample, header);
              cephSamples == o.ceph && openStackSamples == o.openStack && forwarded == o.merged
    {
      logged := printModulo > 0 && samplesGenerated % printModulo == 0;
      var mergedSample, err := SynchronizeSamples(sample, header);
      if err.Some? {
        samplesGenerated := samplesGenerated + 1;
        forwarded := mergedSample;
      } else {
        samplesGenerated := samplesGenerated + 1;
        forwarded := mergedSample;
      }
    }

    /** synchronizeSamples: classify the sample, update the caches, attempt a merge. */
    method SynchronizeSamples(sample: Bitflow.Sample, header: Header) returns (mergedSample: DataSamples, err: Option<MergeError>)
      requires Valid() && Admissible(sample, header)
      modifies this`cephSamples, this`openStackSamples
      ensures Valid()
      ensures var o := Synchronize(old(cephSamples), old(openStackSamples), sample, header);
              cephSamples == o.ceph && openStackSamples == o.openStack && mergedSample == o.merged && err == o.err
    {
      mergedSample, err := NewSample(), None;
      if "image" in sample.tags {
        var image := sample.tags["image"];
        if image !in cephSamples || sample.time != cephSamples[image].sample.time {
          cephSamples := cephSamples[image := SetValues(sample, header)];
          mergedSample, err := SamplesMerge(image);
          if err.Some? {
            return;
          }
        }
      } else if "vm" in sample.tags {
        var vol := Tag(sample.tags, "volumes");
        var linkedVolumes := Split(vol, '|');
        StoreLinked(linkedVolumes, SetValues(sample, header));
        mergedSample, err := SamplesMerge(vol);
        if err.Some? {
          return;
        }
      }
    }

    /** The fan-out loop: the VM entry stored under every linked volume id. */
    method StoreLinked(linkedVolumes: seq<string>, entry: DataSamples)
      modifies this`openStackSamples
      ensures openStackSamples == StoreUnder(old(openStackSamples), linkedVolumes, entry)
    {
      for i := 0 to |linkedVolumes|
        invariant openStackSamples == StoreUnder(old(openStackSamples), linkedVolumes[..i], entry)
      {
        StoreUnderStep(old(openStackSamples), linkedVolumes, i, entry);
        openStackSamples := openStackSamples[linkedVolumes[i] := entry];
      }
      assert linkedVolumes[..|linkedVolumes|] == linkedVolumes;
    }

    /**
     * samplesMerge: probe the VM cache under the first element of `image`;
     * clone that entry and fold in each volume its `volumes` tag lists.
     */
    method SamplesMerge(image: string) returns (mergedSample: DataSamples, err: Option<MergeError>)
      requires Valid()
      ensures MergeResult(mergedSample, err) == SamplesMergeSpec(image, openStackSamples, cephSamples)
    {
      mergedSample, err := NewSample(), None;
      var vols := Split(image, '|');
      var key := vols[0];
      if key !in openStackSamples || openStackSamples[key] == mergedSample {
        return mergedSample, Some(EmptyStruct);
      }
      mergedSample := openStackSamples[key];
      var values := Split(Tag(openStackSamples[key].sample.tags, "volumes"), '|');
      ghost var whole := MergeVolumes(mergedSample, values, cephSamples);
      for i := 0 to |values|
        invariant err == None
        invariant whole == MergeVolumes(mergedSample, values[i..], cephSamples)
      {
        assert values[i..][1..] == values[i + 1..];
        mergedSample, err := MergeAll(mergedSample, values[i]);
        if err.Some? {
          return;
        }
      }
    }

    /**
     * mergeAll: append the volume's fields (prefixed `ceph/<image>/`) and its
     * values in parallel, then set each of its tags under the prefixed key.
     */
    method MergeAll(mergedSample: DataSamples, image: string) returns (r: DataSamples, err: Option<MergeError>)
      requires Valid()
      ensures MergeResult(r, err) == MergeAllSpec(mergedSample, image, cephSamples)
    {
      if image !in cephSamples || cephSamples[image] == NewSample() {
        return mergedSample, Some(VolumeNotFound);
      } else if |cephSamples[image].sample.values| == 0 {
        return mergedSample, Some(VolumeNotFound);
      }
      var volume := cephSamples[image];
      var fields := mergedSample.header.fields;
      var values := mergedSample.sample.values;
      for i := 0 to |volume.header.fields|
        invariant fields == mergedSample.header.fields + Prefixed(CephPrefix(image), volume.header.fields[..i])
        invariant values == mergedSample.sample.values + volume.sample.values[..i]
      {
        assert volume.header.fields[..i + 1][..i] == volume.header.fields[..i];
        assert volume.sample.values[..i + 1] == volume.sample.values[..i] + [volume.sample.values[i]];
        fields := fields + [CephPrefix(image) + volume.header.fields[i]];
        values := values + [volume.sample.values[i]];
      }
      assert volume.header.fields[..|volume.header.fields|] == volume.header.fields;
      var s := SetTags(mergedSample.sample.(values := values), CephPrefix(image), volume.sample.tags);
      r, err := DataSamples(Header(fields), s), None;
    }
  }
}
