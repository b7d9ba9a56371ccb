/** What the stream-join processor guarantees, stated over its specification. */
module MetSyncProperties {
  import opened Wrappers
  import opened GoStrings
  import opened Bitflow
  import opened MetSync

  /** A volume that merges: cached and holding at least one value. */
  predicate Merges(ceph: map<string, DataSamples>, image: string)
  {
    image in ceph && |ceph[image].sample.values| > 0
  }

  /** The empty-entry test of mergeAll adds nothing to its "no values" test. */
  lemma AvailableIffMerges(ceph: map<string, DataSamples>, image: string)
    ensures Available(ceph, image) <==> Merges(ceph, image)
  {
  }

  /**
   * One fold of a volume into a record: the volume's fields are appended in
   * order, each under `ceph/<image>/`; its values follow the record's values
   * in the same order; every volume tag is set under the prefixed key; the
   * record's own fields, values, timestamp and other tags are kept.
   */
  lemma FoldedShape(merged: DataSamples, image: string, v: DataSamples)
    requires WellFormed(v)
    ensures var r := Folded(merged, image, v);
            var m, n, mv := |merged.header.fields|, |v.header.fields|, |merged.sample.values|;
            var p := CephPrefix(image);
            && |r.header.fields| == m + n && r.header.fields[..m] == merged.header.fields
            && (forall i :: m <= i < m + n ==> r.header.fields[i] == p + v.header.fields[i - m])
            && |r.sample.values| == mv + n && r.sample.values[..mv] == merged.sample.values
            && (forall i :: mv <= i < mv + n ==> r.sample.values[i] == v.sample.values[i - mv])
            && r.sample.time == merged.sample.time
            && (forall k :: k in v.sample.tags ==>
                  Namespaced(p, k) in r.sample.tags && r.sample.tags[Namespaced(p, k)] == v.sample.tags[k])
            && (forall key :: key in r.sample.tags ==>
                  key in merged.sample.tags || (|p| <= |key| && key[..|p|] == p && key[|p|..] in v.sample.tags))
            && (forall key :: key in merged.sample.tags && !(|p| <= |key| && key[..|p|] == p && key[|p|..] in v.sample.tags) ==>
                  key in r.sample.tags && r.sample.tags[key] == merged.sample.tags[key])
  {
    var r := Folded(merged, image, v);
    var m := |merged.header.fields|;
    var p := CephPrefix(image);
    forall i | m <= i < m + |v.header.fields|
      ensures r.header.fields[i] == p + v.header.fields[i - m]
    {
      PrefixedAt(p, v.header.fields, i - m);
    }
    PrefixedTagsShape(p, v.sample.tags);
    forall key | key in merged.sample.tags && !(|p| <= |key| && key[..|p|] == p && key[|p|..] in v.sample.tags)
      ensures key in r.sample.tags && r.sample.tags[key] == merged.sample.tags[key]
    {
      assert key !in PrefixedTags(p, v.sample.tags);
    }
  }

  /**
   * mergeAll fails exactly on a volume that is missing or has no values; it
   * then returns the record unchanged with "no such volume found in ceph".
   * Otherwise it folds the volume in, and parity of fields and values is kept.
   */
  lemma MergeAllOutcome(merged: DataSamples, image: string, ceph: map<string, DataSamples>)
    requires CacheWellFormed(ceph)
    ensures var r := MergeAllSpec(merged, image, ceph);
            && (r.err.None? <==> Merges(ceph, image))
            && (r.err.Some? ==> r.record == merged && r.err == Some(VolumeNotFound))
            && (r.err.None? ==> r.record == Folded(merged, image, ceph[image]))
            && (Parity(merged) ==> Parity(r.record))
  {
    if Merges(ceph, image) {
      FoldedShape(merged, image, ceph[image]);
    }
  }

  /** The prefixed fields of each listed volume, concatenated in list order. */
  ghost function LinkedFields(vols: seq<string>, ceph: map<string, DataSamples>): seq<string>
    decreases |vols|
  {
    if vols == [] then []
    else
      (if vols[0] in ceph then Prefixed(CephPrefix(vols[0]), ceph[vols[0]].header.fields) else [])
      + LinkedFields(vols[1..], ceph)
  }

  /** The values of each listed volume, one per field, concatenated in list order. */
  ghost function LinkedValues(vols: seq<string>, ceph: map<string, DataSamples>): seq<Value>
    requires CacheWellFormed(ceph)
    decreases |vols|
  {
    if vols == [] then []
    else
      (if vols[0] in ceph then ceph[vols[0]].sample.values[..|ceph[vols[0]].header.fields|] else [])
      + LinkedValues(vols[1..], ceph)
  }

  /** The number of leading volumes of the list that merge. */
  ghost function LeadingMerges(vols: seq<string>, ceph: map<string, DataSamples>): (n: nat)
    ensures n <= |vols|
    decreases |vols|
  {
    if vols == [] || !Merges(ceph, vols[0]) then 0 else 1 + LeadingMerges(vols[1..], ceph)
  }

  /** The merge loop keeps one value per field. */
  lemma {:induction false} MergeVolumesParity(base: DataSamples, vols: seq<string>, ceph: map<string, DataSamples>)
    requires CacheWellFormed(ceph) && Parity(base)
    ensures Parity(MergeVolumes(base, vols, ceph).record)
    decreases |vols|
  {
    if vols != [] {
      MergeAllOutcome(base, vols[0], ceph);
      var step := MergeAllSpec(base, vols[0], ceph);
      if step.err.None? {
        MergeVolumesParity(step.record, vols[1..], ceph);
      }
    }
  }

  /** The merge loop succeeds exactly when every listed volume merges, and never reports an empty struct. */
  lemma {:induction false} MergeVolumesSucceeds(base: DataSamples, vols: seq<string>, ceph: map<string, DataSamples>)
    requires CacheWellFormed(ceph)
    ensures MergeVolumes(base, vols, ceph).err.None? <==> forall i :: 0 <= i < |vols| ==> Merges(ceph, vols[i])
    ensures MergeVolumes(base, vols, ceph).err != Some(EmptyStruct)
    decreases |vols|
  {
    if vols != [] {
      MergeAllOutcome(base, vols[0], ceph);
      var step := MergeAllSpec(base, vols[0], ceph);
      if step.err.None? {
        MergeVolumesSucceeds(step.record, vols[1..], ceph);
        assert forall i :: 1 <= i < |vols| ==> vols[i] == vols[1..][i - 1];
      }
    }
  }

  /**
   * A successful merge is the base record followed by each listed volume's
   * prefixed fields and values, in tag-string order with duplicates repeated;
   * the timestamp is the base's and none of the base's tags is dropped.
   */
  lemma {:induction false} MergeVolumesComposite(base: DataSamples, vols: seq<string>, ceph: map<string, DataSamples>)
    requires CacheWellFormed(ceph)
    requires MergeVolumes(base, vols, ceph).err.None?
    ensures var r := MergeVolumes(base, vols, ceph).record;
            && r.header.fields == base.header.fields + LinkedFields(vols, ceph)
            && r.sample.values == base.sample.values + LinkedValues(vols, ceph)
            && r.sample.time == base.sample.time
            && base.sample.tags.Keys <= r.sample.tags.Keys
    decreases |vols|
  {
    if vols != [] {
      var step := MergeAllSpec(base, vols[0], ceph);
      assert step.err.None?;
      var v := ceph[vols[0]];
      assert step.record == Folded(base, vols[0], v);
      assert MergeVolumes(base, vols, ceph) == MergeVolumes(step.record, vols[1..], ceph);
      MergeVolumesComposite(step.record, vols[1..], ceph);
      assert LinkedFields(vols, ceph) == Prefixed(CephPrefix(vols[0]), v.header.fields) + LinkedFields(vols[1..], ceph);
      assert LinkedValues(vols, ceph) == v.sample.values[..|v.header.fields|] + LinkedValues(vols[1..], ceph);
    }
  }

  /**
   * A failed merge stops at the first volume that does not merge: the record
   * returned is the base with exactly the volumes before it merged in, and the
   * error is "no such volume found in ceph".
   */
  lemma {:induction false} MergeVolumesPartial(base: DataSamples, vols: seq<string>, ceph: map<string, DataSamples>)
    requires CacheWellFormed(ceph)
    requires MergeVolumes(base, vols, ceph).err.Some?
    ensures var j := LeadingMerges(vols, ceph);
            && j < |vols| && !Merges(ceph, vols[j])
            && MergeVolumes(base, vols[..j], ceph).err.None?
            && MergeVolumes(base, vols, ceph).record == MergeVolumes(base, vols[..j], ceph).record
            && MergeVolumes(base, vols, ceph).err == Some(VolumeNotFound)
    decreases |vols|
  {
    MergeAllOutcome(base, vols[0], ceph);
    var step := MergeAllSpec(base, vols[0], ceph);
    if step.err.None? {
      MergeVolumesPartial(step.record, vols[1..], ceph);
      var j := LeadingMerges(vols[1..], ceph);
      assert vols[..j + 1][1..] == vols[1..][..j];
    } else {
      assert vols[..0] == [];
    }
  }

  /** samplesMerge looks only at the first `|`-separated element of its key. */
  lemma SamplesMergeProbesFirst(image: string, openStack: map<string, DataSamples>, ceph: map<string, DataSamples>)
    requires CacheWellFormed(ceph)
    ensures SamplesMergeSpec(image, openStack, ceph) == SamplesMergeSpec(Split(image, '|')[0], openStack, ceph)
  {
    SplitWithoutSeparator(Split(image, '|')[0], '|');
  }

  /**
   * samplesMerge reports "can't merge an empty struct" exactly when no VM entry,
   * or only an empty one, is cached under the probed key; it then returns
   * the empty record.
   */
  lemma SamplesMergeEmptyStruct(image: string, openStack: map<string, DataSamples>, ceph: map<string, DataSamples>)
    requires CacheWellFormed(ceph)
    ensures var key := Split(image, '|')[0];
            var r := SamplesMergeSpec(image, openStack, ceph);
            && (r.err == Some(EmptyStruct) <==> key !in openStack || IsEmptyEntry(openStack[key]))
            && (r.err == Some(EmptyStruct) ==> r.record == NewSample())
  {
    var key := Split(image, '|')[0];
    assert IsEmptyEntry(NewSample());
    if key in openStack && openStack[key] != NewSample() {
      assert !IsEmptyEntry(openStack[key]);
      MergeVolumesSucceeds(openStack[key], Split(Tag(openStack[key].sample.tags, "volumes"), '|'), ceph);
    }
  }

  /**
   * With a VM entry under the probed key, samplesMerge succeeds exactly when
   * every volume in that entry's own `volumes` tag merges, and then yields
   * the VM's fields and values followed by those volumes' prefixed fields
   * and values, carrying the VM's timestamp and tags.
   */
  lemma SamplesMergeComposite(image: string, openStack: map<string, DataSamples>, ceph: map<string, DataSamples>)
    requires CacheWellFormed(ceph)
    requires var key := Split(image, '|')[0]; key in openStack && !IsEmptyEntry(openStack[key])
    ensures var base := openStack[Split(image, '|')[0]];
            var vols := Split(Tag(base.sample.tags, "volumes"), '|');
            var r := SamplesMergeSpec(image, openStack, ceph);
            && (r.err.None? <==> forall i :: 0 <= i < |vols| ==> Merges(ceph, vols[i]))
            && (r.err.None? ==>
                  && r.record.header.fields == base.header.fields + LinkedFields(vols, ceph)
                  && r.record.sample.values == base.sample.values + LinkedValues(vols, ceph)
                  && r.record.sample.time == base.sample.time
                  && base.sample.tags.Keys <= r.record.sample.tags.Keys)
  {
    var base := openStack[Split(image, '|')[0]];
    var vols := Split(Tag(base.sample.tags, "volumes"), '|');
    assert IsEmptyEntry(NewSample()) && base != NewSample();
    assert SamplesMergeSpec(image, openStack, ceph) == MergeVolumes(base, vols, ceph);
    MergeVolumesSucceeds(base, vols, ceph);
    if MergeVolumes(base, vols, ceph).err.None? {
      MergeVolumesComposite(base, vols, ceph);
    }
  }

  /**
   * A volume arrival (tag `image`) never touches the VM cache, even when the
   * sample also carries `vm`. It replaces the cached volume entry when there
   * is none or its timestamp differs; either way the entry cached for the
   * volume afterwards carries the arrival's timestamp, and no other volume
   * entry changes.
   */
  lemma ImageArrivalCaches(ceph: map<string, DataSamples>, openStack: map<string, DataSamples>, sample: Sample, header: Header)
    requires CacheWellFormed(ceph) && Admissible(sample, header) && "image" in sample.tags
    ensures var o := Synchronize(ceph, openStack, sample, header);
            var image := sample.tags["image"];
            var refresh := image !in ceph || sample.time != ceph[image].sample.time;
            && o.openStack == openStack
            && image in o.ceph && o.ceph[image].sample.time == sample.time
            && (refresh ==> o.ceph[image] == SetValues(sample, header))
            && (!refresh ==> o.ceph[image] == ceph[image])
            && (forall k :: k != image ==> (k in o.ceph <==> k in ceph))
            && (forall k :: k != image && k in ceph ==> o.ceph[k] == ceph[k])
  {
  }

  /**
   * A volume arrival carrying the timestamp already cached for its image
   * changes nothing and yields the empty record with no error.
   */
  lemma ImageRepeatIgnored(ceph: map<string, DataSamples>, openStack: map<string, DataSamples>, sample: Sample, header: Header)
    requires CacheWellFormed(ceph) && Admissible(sample, header) && "image" in sample.tags
    requires sample.tags["image"] in ceph && ceph[sample.tags["image"]].sample.time == sample.time
    ensures Synchronize(ceph, openStack, sample, header) == Outcome(ceph, openStack, NewSample(), None)
  {
  }

  /**
   * Replaying a volume sample: the second delivery leaves both caches as the
   * first left them and yields the empty record with no error.
   */
  lemma ImageReplay(ceph: map<string, DataSamples>, openStack: map<string, DataSamples>, sample: Sample, header: Header)
    requires CacheWellFormed(ceph) && Admissible(sample, header) && "image" in sample.tags
    ensures var o1 := Synchronize(ceph, openStack, sample, header);
            CacheWellFormed(o1.ceph) &&
            Synchronize(o1.ceph, o1.openStack, sample, header) == Outcome(o1.ceph, o1.openStack, NewSample(), None)
  {
    var o1 := Synchronize(ceph, openStack, sample, header);
    ImageArrivalCaches(ceph, openStack, sample, header);
    SynchronizeKeepsCaches(ceph, openStack, sample, header);
    ImageRepeatIgnored(o1.ceph, o1.openStack, sample, header);
  }

  /**
   * A volume arrival for which no VM has yet claimed the probed volume id
   * forwards the empty record with "can't merge an empty struct".
   */
  lemma ImageArrivalWithoutOwner(ceph: map<string, DataSamples>, openStack: map<string, DataSamples>, sample: Sample, header: Header)
    requires CacheWellFormed(ceph) && Admissible(sample, header) && "image" in sample.tags
    requires var image := sample.tags["image"]; image !in ceph || sample.time != ceph[image].sample.time
    requires Split(sample.tags["image"], '|')[0] !in openStack
    ensures var o := Synchronize(ceph, openStack, sample, header);
            o.merged == NewSample() && o.err == Some(EmptyStruct)
  {
  }

  /** A sample with neither an `image` nor a `vm` tag changes nothing and yields the empty record, no error. */
  lemma UnclassifiedIgnored(ceph: map<string, DataSamples>, openStack: map<string, DataSamples>, sample: Sample, header: Header)
    requires CacheWellFormed(ceph) && Admissible(sample, header)
    requires "image" !in sample.tags && "vm" !in sample.tags
    ensures Synchronize(ceph, openStack, sample, header) == Outcome(ceph, openStack, NewSample(), None)
  {
  }

  /**
   * A VM arrival is stored under every `|`-separated element of its `volumes`
   * tag and under no other key; the volume cache and the VM entries under
   * other keys are unchanged.
   */
  lemma VmFanOut(ceph: map<string, DataSamples>, openStack: map<string, DataSamples>, sample: Sample, header: Header)
    requires CacheWellFormed(ceph) && Admissible(sample, header)
    requires "image" !in sample.tags && "vm" in sample.tags
    ensures var o := Synchronize(ceph, openStack, sample, header);
            var keys := Split(Tag(sample.tags, "volumes"), '|');
            && o.ceph == ceph
            && (forall k :: k in o.openStack <==> k in openStack || k in keys)
            && (forall k :: k in keys ==> o.openStack[k] == SetValues(sample, header))
            && (forall k :: k in openStack && k !in keys ==> o.openStack[k] == openStack[k])
  {
  }

  /** A VM sample without a `volumes` tag is stored under the single key "". */
  lemma VmWithoutVolumesTag(ceph: map<string, DataSamples>, openStack: map<string, DataSamples>, sample: Sample, header: Header)
    requires CacheWellFormed(ceph) && Admissible(sample, header)
    requires "image" !in sample.tags && "vm" in sample.tags && "volumes" !in sample.tags
    ensures Synchronize(ceph, openStack, sample, header).openStack == openStack["" := SetValues(sample, header)]
  {
    var o := Synchronize(ceph, openStack, sample, header);
    assert Split("", '|') == [""];
    assert o.openStack == openStack + map k | k in [""] :: SetValues(sample, header);
  }

  /**
   * The merge attempt of a VM arrival starts from that very VM sample and
   * folds in the volumes of its own `volumes` tag; it never reports
   * "can't merge an empty struct".
   */
  lemma VmArrivalMergesItself(ceph: map<string, DataSamples>, openStack: map<string, DataSamples>, sample: Sample, header: Header)
    requires CacheWellFormed(ceph) && Admissible(sample, header)
    requires "image" !in sample.tags && "vm" in sample.tags
    ensures var o := Synchronize(ceph, openStack, sample, header);
            && MergeResult(o.merged, o.err) ==
               MergeVolumes(SetValues(sample, header), Split(Tag(sample.tags, "volumes"), '|'), ceph)
            && o.err != Some(EmptyStruct)
  {
    var entry := SetValues(sample, header);
    var vol := Tag(sample.tags, "volumes");
    var keys := Split(vol, '|');
    assert keys[0] in keys;
    assert "vm" in entry.sample.tags && entry != NewSample();
    MergeVolumesSucceeds(entry, keys, ceph);
  }

  /**
   * Caches never shrink, and every cached volume entry keeps a value for
   * each of its fields.
   */
  lemma SynchronizeKeepsCaches(ceph: map<string, DataSamples>, openStack: map<string, DataSamples>, sample: Sample, header: Header)
    requires CacheWellFormed(ceph) && Admissible(sample, header)
    ensures var o := Synchronize(ceph, openStack, sample, header);
            ceph.Keys <= o.ceph.Keys && openStack.Keys <= o.openStack.Keys && CacheWellFormed(o.ceph)
  {
  }

  /**
   * When every cached VM entry and the arriving record have one value per
   * field, so does the record forwarded, and so do the VM entries afterwards.
   */
  lemma SynchronizeParity(ceph: map<string, DataSamples>, openStack: map<string, DataSamples>, sample: Sample, header: Header)
    requires CacheWellFormed(ceph) && Admissible(sample, header)
    requires forall k :: k in openStack ==> Parity(openStack[k])
    requires Parity(SetValues(sample, header))
    ensures var o := Synchronize(ceph, openStack, sample, header);
            Parity(o.merged) && forall k :: k in o.openStack ==> Parity(o.openStack[k])
  {
    var o := Synchronize(ceph, openStack, sample, header);
    if "image" in sample.tags {
      var image := sample.tags["image"];
      if image !in ceph || sample.time != ceph[image].sample.time {
        var key := Split(image, '|')[0];
        if key in openStack && openStack[key] != NewSample() {
          MergeVolumesParity(openStack[key], Split(Tag(openStack[key].sample.tags, "volumes"), '|'), o.ceph);
        }
      }
    } else if "vm" in sample.tags {
      VmArrivalMergesItself(ceph, openStack, sample, header);
      MergeVolumesParity(SetValues(sample, header), Split(Tag(sample.tags, "volumes"), '|'), ceph);
    }
  }

  /** The VM record of the scenario below: one field, volumes v1 and v2. */
  function ScenarioVm(cpu: Value): DataSamples
  {
    DataSamples(Header(["cpu"]), Sample([cpu], 10, map["vm" := "vm1", "volumes" := "v1|v2"]))
  }

  /** The volume record of the scenario below for `image`, with one field. */
  function ScenarioVolume(image: string, field: string, v: Value, time: int): DataSamples
  {
    DataSamples(Header([field]), Sample([v], time, map["image" := image]))
  }

  lemma SplitTwoVolumes()
    ensures Split("v1|v2", '|') == ["v1", "v2"]
    ensures Split("v1", '|') == ["v1"] && Split("v2", '|') == ["v2"]
  {
    assert Join(["v1", "v2"], '|') == "v1|v2";
    SplitOfJoin(["v1", "v2"], '|');
    SplitWithoutSeparator("v1", '|');
    SplitWithoutSeparator("v2", '|');
  }

  /** Folding a one-field volume with only an `image` tag into a record. */
  lemma FoldedSingle(merged: DataSamples, image: string, field: string, v: Value, time: int)
    ensures Folded(merged, image, ScenarioVolume(image, field, v, time)) ==
            DataSamples(Header(merged.header.fields + [CephPrefix(image) + field]),
                        merged.sample.(values := merged.sample.values + [v],
                                       tags := merged.sample.tags[CephPrefix(image) + "image" := image]))
  {
    var e := ScenarioVolume(image, field, v, time);
    var p := CephPrefix(image);
    var r := Folded(merged, image, e);
    assert r.header.fields == merged.header.fields + [p + field] by {
      assert Prefixed(p, [field]) == [p + field] by {
        assert [field][..0] == [];
      }
    }
    assert r.sample.values == merged.sample.values + [v] by {
      assert e.sample.values[..1] == [v];
    }
    assert r.sample.tags == merged.sample.tags[p + "image" := image] by {
      PrefixedTagsInsert(p, map[], "image", image);
      assert PrefixedTags(p, map[]) == map[];
      assert map[]["image" := image] == e.sample.tags;
      UpdateAfterUnion(merged.sample.tags, map[], Namespaced(p, "image"), image);
      assert merged.sample.tags + map[] == merged.sample.tags;
    }
  }

  /** The VM arrives first: it is stored under v1 and v2, and the attempt stops at v1. */
  lemma ScenarioStep1(cpu: Value)
    ensures var vm := ScenarioVm(cpu);
            Synchronize(map[], map[], vm.sample, vm.header) ==
            Outcome(map[], map["v1" := vm, "v2" := vm], vm, Some(VolumeNotFound))
  {
    var vm := ScenarioVm(cpu);
    SplitTwoVolumes();
    assert StoreUnder(map[], ["v1", "v2"], vm) == map["v1" := vm, "v2" := vm];
    assert MergeVolumes(vm, ["v1", "v2"], map[]) == MergeResult(vm, Some(VolumeNotFound));
  }

  /** Then v1 arrives: the attempt merges v1 into the VM record and stops at v2. */
  lemma ScenarioStep2(cpu: Value, readOps: Value)
    ensures var vm, e1 := ScenarioVm(cpu), ScenarioVolume("v1", "reads", readOps, 11);
            Synchronize(map[], map["v1" := vm, "v2" := vm], e1.sample, e1.header) ==
            Outcome(map["v1" := e1], map["v1" := vm, "v2" := vm], Folded(vm, "v1", e1), Some(VolumeNotFound))
  {
    var vm, e1 := ScenarioVm(cpu), ScenarioVolume("v1", "reads", readOps, 11);
    var ceph := map["v1" := e1];
    SplitTwoVolumes();
    assert MergeAllSpec(vm, "v1", ceph) == MergeResult(Folded(vm, "v1", e1), None);
    assert MergeVolumes(vm, ["v1", "v2"], ceph) == MergeVolumes(Folded(vm, "v1", e1), ["v2"], ceph) by {
      assert ["v1", "v2"][1..] == ["v2"];
    }
  }

  /** With both volumes cached, the merge through the VM record folds in v1, then v2. */
  lemma ScenarioMergeBoth(vm: DataSamples, e1: DataSamples, e2: DataSamples)
    requires WellFormed(e1) && WellFormed(e2) && |e1.sample.values| > 0 && |e2.sample.values| > 0
    requires e1 != NewSample() && e2 != NewSample()
    ensures CacheWellFormed(map["v1" := e1, "v2" := e2])
    ensures MergeVolumes(vm, ["v1", "v2"], map["v1" := e1, "v2" := e2]) == MergeResult(Folded(Folded(vm, "v1", e1), "v2", e2), None)
  {
    var ceph := map["v1" := e1, "v2" := e2];
    var m1 := Folded(vm, "v1", e1);
    assert MergeAllSpec(vm, "v1", ceph) == MergeResult(m1, None);
    assert MergeAllSpec(m1, "v2", ceph) == MergeResult(Folded(m1, "v2", e2), None);
    assert ["v1", "v2"][1..] == ["v2"];
    assert ["v2"][1..] == [];
  }

  /** Finally v2 arrives: the attempt through the VM entry under v2 merges both volumes. */
  lemma ScenarioStep3(cpu: Value, readOps: Value, writeOps: Value)
    ensures var vm, e1, e2 := ScenarioVm(cpu), ScenarioVolume("v1", "reads", readOps, 11), ScenarioVolume("v2", "writes", writeOps, 12);
            Synchronize(map["v1" := e1], map["v1" := vm, "v2" := vm], e2.sample, e2.header) ==
            Outcome(map["v1" := e1, "v2" := e2], map["v1" := vm, "v2" := vm], Folded(Folded(vm, "v1", e1), "v2", e2), None)
  {
    var vm, e1, e2 := ScenarioVm(cpu), ScenarioVolume("v1", "reads", readOps, 11), ScenarioVolume("v2", "writes", writeOps, 12);
    SplitTwoVolumes();
    ScenarioMergeBoth(vm, e1, e2);
    assert map["v1" := e1][e2.sample.tags["image"] := SetValues(e2.sample, e2.header)] == map["v1" := e1, "v2" := e2];
  }

  /** The field names of the scenario below. */
  lemma ScenarioNames()
    ensures CephPrefix("v1") + "reads" == "ceph/v1/reads" && CephPrefix("v1") + "image" == "ceph/v1/image"
    ensures CephPrefix("v2") + "writes" == "ceph/v2/writes" && CephPrefix("v2") + "image" == "ceph/v2/image"
  {
  }

  /**
   * A VM listing volumes v1 and v2, then v1, then v2 arrive. The first two
   * attempts stop at the first volume not yet cached and forward what was
   * merged so far; the third yields the composite: the VM's field, then v1's
   * and v2's fields under their namespaces, their values in the same order,
   * the VM's timestamp, and each volume's tags under its namespace.
   */
  lemma JoinScenario(cpu: Value, readOps: Value, writeOps: Value)
    ensures var vm := ScenarioVm(cpu);
            var e1, e2 := ScenarioVolume("v1", "reads", readOps, 11), ScenarioVolume("v2", "writes", writeOps, 12);
            var vms := map["v1" := vm, "v2" := vm];
            && Synchronize(map[], map[], vm.sample, vm.header) == Outcome(map[], vms, vm, Some(VolumeNotFound))
            && Synchronize(map[], vms, e1.sample, e1.header) ==
               Outcome(map["v1" := e1], vms,
                       DataSamples(Header(["cpu", "ceph/v1/reads"]),
                                   Sample([cpu, readOps], 10, vm.sample.tags["ceph/v1/image" := "v1"])),
                       Some(VolumeNotFound))
            && Synchronize(map["v1" := e1], vms, e2.sample, e2.header) ==
               Outcome(map["v1" := e1, "v2" := e2], vms,
                       DataSamples(Header(["cpu", "ceph/v1/reads", "ceph/v2/writes"]),
                                   Sample([cpu, readOps, writeOps], 10,
                                          vm.sample.tags["ceph/v1/image" := "v1"]["ceph/v2/image" := "v2"])),
                       None)
  {
    ScenarioFoldV1(cpu, readOps);
    ScenarioFoldV2(cpu, readOps, writeOps);
    ScenarioStep1(cpu);
    ScenarioStep2(cpu, readOps);
    ScenarioStep3(cpu, readOps, writeOps);
  }

  /** The record after v1 has been folded into the VM record of the scenario. */
  lemma ScenarioFoldV1(cpu: Value, readOps: Value)
    ensures Folded(ScenarioVm(cpu), "v1", ScenarioVolume("v1", "reads", readOps, 11)) ==
            DataSamples(Header(["cpu", "ceph/v1/reads"]),
                        Sample([cpu, readOps], 10, ScenarioVm(cpu).sample.tags["ceph/v1/image" := "v1"]))
  {
    FoldedSingle(ScenarioVm(cpu), "v1", "reads", readOps, 11);
    ScenarioNames();
    assert ["cpu"] + ["ceph/v1/reads"] == ["cpu", "ceph/v1/reads"];
    assert [cpu] + [readOps] == [cpu, readOps];
  }

  /** The record after v2 has been folded in as well. */
  lemma ScenarioFoldV2(cpu: Value, readOps: Value, writeOps: Value)
    ensures var m1 := DataSamples(Header(["cpu", "ceph/v1/reads"]),
                                  Sample([cpu, readOps], 10, ScenarioVm(cpu).sample.tags["ceph/v1/image" := "v1"]));
            Folded(m1, "v2", ScenarioVolume("v2", "writes", writeOps, 12)) ==
            DataSamples(Header(["cpu", "ceph/v1/reads", "ceph/v2/writes"]),
                        Sample([cpu, readOps, writeOps], 10, m1.sample.tags["ceph/v2/image" := "v2"]))
  {
    var m1 := DataSamples(Header(["cpu", "ceph/v1/reads"]),
                          Sample([cpu, readOps], 10, ScenarioVm(cpu).sample.tags["ceph/v1/image" := "v1"]));
    FoldedSingle(m1, "v2", "writes", writeOps, 12);
    ScenarioNames();
    assert ["cpu", "ceph/v1/reads"] + ["ceph/v2/writes"] == ["cpu", "ceph/v1/reads", "ceph/v2/writes"];
    assert [cpu, readOps] + [writeOps] == [cpu, readOps, writeOps];
  }

  /** With a non-positive cadence the progress line never fires. */
  lemma NeverLogsWithoutCadence(printModulo: int, generated: nat)
    requires printModulo <= 0
    ensures !ShouldLog(printModulo, generated)
  {
  }

  /**
   * With a positive cadence it fires before the first sample, not before the
   * next printModulo - 1, and then periodically with period printModulo.
   */
  lemma LogCadence(printModulo: int, generated: nat)
    requires printModulo > 0
    ensures ShouldLog(printModulo, 0)
    ensures 0 < generated < printModulo ==> !ShouldLog(printModulo, generated)
    ensures ShouldLog(printModulo, generated + printModulo) == ShouldLog(printModulo, generated)
  {
    var q, r := generated / printModulo, generated % printModulo;
    assert generated + printModulo == (q + 1) * printModulo + r;
    ModUnique(printModulo, generated + printModulo, q + 1, r);
  }

  lemma MulAtLeast(d: int, m: int)
    requires d >= 1 && m > 0
    ensures d * m >= m
  {
    assert d * m == (d - 1) * m + m;
  }

  /** Euclidean division has a single remainder. */
  lemma ModUnique(m: int, x: int, q: int, r: int)
    requires m > 0 && 0 <= r < m && x == q * m + r
    ensures x % m == r
  {
    var q', r' := x / m, x % m;
    assert (q - q') * m == r' - r;
    if q - q' >= 1 {
      MulAtLeast(q - q', m);
    } else if q' - q >= 1 {
      assert (q' - q) * m == r - r';
      MulAtLeast(q' - q, m);
    }
  }
}
