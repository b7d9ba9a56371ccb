# collector-synchronizer, modelled in Dafny

The collector-synchronizer is a bitflow plugin with two parts.

The first is a **stream-join processor**, `SyncSampleProcessor`. It receives samples from two sources:

- volume samples from ceph, tagged `image`;
- VM samples from openstack, tagged `vm`, whose `volumes` tag lists the VM's volumes separated by `|`.

It keeps three pieces of state:

- a cache of volume entries;
- a cache of VM entries, each stored under every one of its volume ids;
- a counter of processed samples.

On every arrival it tries to build a composite record. The record starts as a copy of the VM entry found under the first `|`-separated element of the arriving key. Then each volume named in that VM entry's own `volumes` tag is folded in, left to right:

- its fields are appended as `ceph/<volume>/<field>`;
- its values are appended in the same order;
- its tags are set under `ceph/<volume>/<tag>`.

The fold stops at the first volume that is not cached or has no values. Whatever record results is forwarded downstream, error or not, and the counter goes up by one.

The second part is the **per-image grouping** of the ceph collector. It takes the rows matched by the metric regular expression (metric name, pool, namespace, image, value) and folds them into one group per distinct image, in order of first appearance. Each group holds its image's metric names and values in parallel, and the tags of the image's first row. One sample is emitted per group.

The model has six modules:

- `GoStrings` (go_strings.dfy): Go's `strings.Split` for a one-character separator, and `strings.Join` as its inverse.
- `Bitflow` (bitflow.dfy):
  - the record types, with an opaque value type;
  - tag lookup with Go's zero-string default;
  - namespacing of field names and tag keys;
  - the `SetTag` loop, as `SetTags`.
- `MetSync` (met_sync.dfy):
  - functions that specify one arrival on the two caches as values (`MergeAllSpec`, `MergeVolumes`, `SamplesMergeSpec`, `Synchronize`);
  - the class `SyncSampleProcessor`, with the two maps and the counter as fields. Its methods contain the source's loops, and each one is proved equal to its function.
- `MetSyncProperties` (met_sync_properties.dfy): what the processor guarantees, stated and proved over those functions.
- `Collector` (collector.dfy): `checkSample`, the grouping loop and the emission loop. They are proved against reference definitions of the grouping:
  - `Dedup` gives the distinct images in order of first occurrence;
  - `MetricsOf` and `ValuesOf` give an image's rows in row order;
  - `GroupOf` gives the group of one image.
- `Wrappers` (wrappers.dfy): `Option`.

`reflect.DeepEqual(x, newSample())` becomes `x == NewSample()`, and `NewSample()` is proved to be the one entry satisfying `IsEmptyEntry`. `samplesMerge` compares against its `mergedSample` argument, and both callers pass a fresh `newSample()`, so the model compares with `NewSample()` directly.

One might expect a failed merge to be discarded and never emitted. The code forwards it: `Sample` passes the record on in both branches. On an error, that record is either the empty record or the VM base with the volumes merged so far. The model follows the code. `JoinScenario` shows this on three arrivals: a VM claiming `v1|v2`, then `v1`, then `v2`. The second attempt forwards the VM record with `v1` merged and returns the error "no such volume found in ceph".

## Model

| member | source | states |
|---|---|---|
| GoStrings.Split | collector-synchronizer/met-sync.go:84 | `strings.Split` on the pipe separator never returns an empty list, and no piece contains the separator |
| GoStrings.JoinOfSplit | collector-synchronizer/met-sync.go:84 | joining the pieces of a split with the separator gives back the string |
| GoStrings.SplitOfJoin | collector-synchronizer/met-sync.go:109 | splitting the join of separator-free pieces gives back the pieces |
| GoStrings.SplitWithoutSeparator | collector-synchronizer/met-sync.go:101-102 | a string without a pipe splits into itself, so it is its own first element |
| GoStrings.SplitLength | collector-synchronizer/met-sync.go:84 | a split has one more piece than the string has separators |
| Bitflow.PrefixedAt | collector-synchronizer/met-sync.go:129 | the i-th namespaced field is `prefix + fields[i]`; stripping the prefix recovers `fields[i]` |
| Bitflow.PrefixedAppend | collector-synchronizer/met-sync.go:128-131 | namespacing distributes over concatenation of field lists |
| Bitflow.NamespacedInjective | collector-synchronizer/met-sync.go:133 | distinct tag keys stay distinct under the same prefix |
| Bitflow.PrefixedTagsShape | collector-synchronizer/met-sync.go:132-135 | every tag appears under its prefixed key with its value, and every prefixed key comes from a tag |
| Bitflow.PrefixedTagsInsert | collector-synchronizer/met-sync.go:132-135 | setting one more source tag sets exactly one more prefixed tag |
| Bitflow.SetTags | collector-synchronizer/met-sync.go:132-135 | the `SetTag` loop over a map, in any iteration order, yields the old tags overridden by all prefixed tags; values and time are unchanged |
| MetSync.NewSample | collector-synchronizer/met-sync.go:26-34 | `newSample()` is empty (no fields, values or tags, zero time) and is the only empty entry |
| MetSync.StoreUnderStep | collector-synchronizer/met-sync.go:85-88 | storing under one more listed id is one more map update |
| MetSync.SyncSampleProcessor.constructor | collector-synchronizer/plugin.go:40-44 | the step starts with both maps allocated and empty and the counter at zero |
| MetSync.SyncSampleProcessor.Sample | collector-synchronizer/met-sync.go:51-63 | logs exactly when `PrintModulo > 0` and the old counter is divisible by it; raises the counter by exactly one; leaves the caches as `Synchronize` says; forwards its record in both the error and the success branch |
| MetSync.SyncSampleProcessor.SynchronizeSamples | collector-synchronizer/met-sync.go:67-96 | the new caches, the record and the error are those of `Synchronize` on the old caches |
| MetSync.SyncSampleProcessor.StoreLinked | collector-synchronizer/met-sync.go:85-88 | the fan-out loop stores the VM entry under every listed id and changes nothing else |
| MetSync.SyncSampleProcessor.SamplesMerge | collector-synchronizer/met-sync.go:100-119 | the probe of the first element and the merge loop, which stops at the first error, give `SamplesMergeSpec` |
| MetSync.SyncSampleProcessor.MergeAll | collector-synchronizer/met-sync.go:122-138 | the indexed append loop and the tag loop give `MergeAllSpec`: both error checks, or the fold of the volume |
| MetSyncProperties.AvailableIffMerges | collector-synchronizer/met-sync.go:123-126 | a volume passes both of mergeAll's checks exactly when it is cached with at least one value |
| MetSyncProperties.FoldedShape | collector-synchronizer/met-sync.go:128-135 | one fold appends exactly the volume's fields, prefixed and in order, and the matching values; it sets each volume tag under its prefixed key, keeps the time, and keeps every other tag |
| MetSyncProperties.MergeAllOutcome | collector-synchronizer/met-sync.go:122-138 | mergeAll fails exactly on a missing, empty or value-less volume, returning the record unchanged with "no such volume found in ceph"; otherwise it folds the volume in; field/value parity is preserved |
| MetSyncProperties.MergeVolumesParity | collector-synchronizer/met-sync.go:110-115 | the merge loop keeps one value per field |
| MetSyncProperties.MergeVolumesSucceeds | collector-synchronizer/met-sync.go:110-115 | the merge loop succeeds exactly when every listed volume merges, and never reports "can't merge an empty struct" |
| MetSyncProperties.MergeVolumesComposite | collector-synchronizer/met-sync.go:106-115 | a successful merge is the base followed by each listed volume's prefixed fields and values, in list order with repeats; the base's time and tag keys are kept |
| MetSyncProperties.MergeVolumesPartial | collector-synchronizer/met-sync.go:110-114 | a failed merge returns the base with exactly the volumes before the first failing one merged in, and "no such volume found in ceph" |
| MetSyncProperties.SamplesMergeProbesFirst | collector-synchronizer/met-sync.go:101-102 | samplesMerge depends only on the first pipe-separated element of its key |
| MetSyncProperties.SamplesMergeEmptyStruct | collector-synchronizer/met-sync.go:101-104 | "can't merge an empty struct" is reported exactly when no entry, or only an empty one, is cached under the probed key; the empty record is returned |
| MetSyncProperties.SamplesMergeComposite | collector-synchronizer/met-sync.go:105-118 | with a VM entry under the probed key, the merge succeeds exactly when every volume of that entry's own `volumes` tag merges, and yields the composite record |
| MetSyncProperties.ImageArrivalCaches | collector-synchronizer/met-sync.go:70-74 | a volume sample leaves the VM cache alone; it replaces its cache entry by the `setValues` copy only when there is none or the time differs; no other volume entry changes |
| MetSyncProperties.ImageRepeatIgnored | collector-synchronizer/met-sync.go:72-80 | a volume sample with the cached time changes nothing and yields the empty record with no error (line 95) |
| MetSyncProperties.ImageReplay | collector-synchronizer/met-sync.go:70-80 | delivering the same volume sample twice: the second delivery is a no-op returning the empty record |
| MetSyncProperties.ImageArrivalWithoutOwner | collector-synchronizer/met-sync.go:72-79 | a new volume sample whose id no VM has claimed yields the empty record with "can't merge an empty struct" |
| MetSyncProperties.UnclassifiedIgnored | collector-synchronizer/met-sync.go:67-96 | a sample with neither `image` nor `vm` changes nothing and yields the empty record with no error |
| MetSyncProperties.VmFanOut | collector-synchronizer/met-sync.go:81-88 | a VM sample's `setValues` copy is stored under every element of its split `volumes` tag and no other key; the volume cache is unchanged |
| MetSyncProperties.VmWithoutVolumesTag | collector-synchronizer/met-sync.go:83-88 | a VM sample without a `volumes` tag is stored under the single key "" |
| MetSyncProperties.VmArrivalMergesItself | collector-synchronizer/met-sync.go:81-93 | a VM arrival's merge starts from that VM sample and folds in its own volumes; it never reports an empty struct |
| MetSyncProperties.SynchronizeKeepsCaches | collector-synchronizer/met-sync.go:67-96 | caches never lose a key, and cached volume entries keep a value for every field |
| MetSyncProperties.SynchronizeParity | collector-synchronizer/met-sync.go:67-119 | if the VM entries and the arriving sample have one value per field, so do the forwarded record and the VM entries afterwards |
| MetSyncProperties.ScenarioStep1 | collector-synchronizer/met-sync.go:81-93 | a VM claiming volumes `v1` and `v2`, arriving first, is cached under both ids; its merge stops at `v1` |
| MetSyncProperties.ScenarioStep2 | collector-synchronizer/met-sync.go:70-79 | volume `v1`, arriving next, is cached; the merge through the VM folds in `v1` and stops at `v2` |
| MetSyncProperties.ScenarioStep3 | collector-synchronizer/met-sync.go:70-79 | volume `v2`, arriving last, completes the merge of both volumes without error |
| MetSyncProperties.JoinScenario | collector-synchronizer/met-sync.go:51-138 | the three arrivals above yield: the VM record with an error; the VM record plus `ceph/v1/reads` with an error; then the composite with `cpu`, `ceph/v1/reads`, `ceph/v2/writes`, its values, the VM's time and the namespaced `image` tags |
| MetSyncProperties.NeverLogsWithoutCadence | collector-synchronizer/met-sync.go:52-54 | with `PrintModulo <= 0` the progress line never fires |
| MetSyncProperties.LogCadence | collector-synchronizer/met-sync.go:52-54 | with a positive `PrintModulo` the line fires on the first sample, not on the next `PrintModulo - 1`, and then with period `PrintModulo` |
| Collector.IndexOf | collector-synchronizer/collector.go:129-136 | the position of the first occurrence of an element |
| Collector.CheckSample | collector-synchronizer/collector.go:129-136 | returns the smallest index whose group has the image name, or -1 exactly when there is none |
| Collector.DedupMembers | collector-synchronizer/collector.go:146-171 | the distinct images are exactly the images of the rows |
| Collector.DedupDistinct | collector-synchronizer/collector.go:146-171 | no image appears twice among the distinct images |
| Collector.DedupOrder | collector-synchronizer/collector.go:146-171 | the distinct images are listed in order of their first occurrence |
| Collector.OfPresent | collector-synchronizer/collector.go:153-159 | an image has as many metric names as values, and at least one of each if it occurs |
| Collector.GroupOfSnoc | collector-synchronizer/collector.go:152-154 | one more row extends only its own image's group, by its name and value; first-row tags are kept |
| Collector.GroupOfNew | collector-synchronizer/collector.go:155-169 | the row that opens a group gives its single name, value and tags: pool, namespace, image and source name |
| Collector.GroupRow | collector-synchronizer/collector.go:146-170 | one iteration of the grouping loop keeps the groups equal to the fold of the rows consumed so far |
| Collector.GroupRows | collector-synchronizer/collector.go:145-171 | one group per distinct image with distinct names, in first-occurrence order; each group's header and values are that image's metric names and values in row order, with `len(Header) == len(Metric) >= 1`; tags come from the first row; the header entries total the number of rows |
| Collector.EmitSamples | collector-synchronizer/collector.go:172-186 | exactly one sample per group, in group order, with fields = `Header`, values = `Metric`, the group's time and tags |
| Collector.EmitOne | collector-synchronizer/collector.go:178-184 | setting the group's tags one by one, in any order, gives a sample with exactly the group's tags |
| Collector.GenerateSamples | collector-synchronizer/collector.go:145-186 | one sample per distinct image, in first-occurrence order; fields and values are that image's metric names and values in row order, time is the collection time, and the tags are those of its first row and the source name |

## Left out

- HTTP scraping in `collectData`: network I/O. The scraped text and its collection time are not modelled.
- The regular expression match: a library call. The model takes its matches as a sequence of `Row`s, one per match, holding capture groups 2, 12, 14, 16 and the value from group 17.
- `strconv.ParseFloat` and its panic: float parsing. Values are an opaque type, and each row carries its parsed value.
- The channel, `LoopTask`, `Start`/`loopIteration`, `emitSample`'s channel send, and the `parallelForwardSamples` goroutine with its fatal-forwarding policy: concurrency and lifecycle. `EmitSamples` returns the emitted samples as a sequence instead.
- Flag and parameter handling (`SetValues`, `RegisterFlags`, `Initialize`, `String`, `Close`, `cleanup`) and the plugin registration in plugin.go: configuration glue. Only the maps' initial state is modelled, by the constructor.
- The `p.cephSamples == nil` disjunct of line 72 of met-sync.go: the maps are always allocated, so it is dead.
- Logging and printing (`log.Println`, `fmt.Println`): side effects only. `Sample` returns whether the progress line would be printed.
- The downstream `NoopProcessor.Sample` call and its returned error: the model returns the forwarded record instead.
- Bitflow's `Clone`, `TagMap` and `SetTag` internals: records are values. A clone is the value itself, and the aliasing of a cloned header's field slice by later `append` calls is not modelled.
- The nil/empty distinction of Go slices: `Values == nil` in `mergeAll` is modelled as "no values".
- MetSync.SyncSampleProcessor.MergeAll: requires every cached volume entry to have at least as many values as fields. The class invariant `Valid` enforces this, and `Sample` asks it of arriving volume samples. For an entry with more fields than values but at least one value, the source would panic on an out-of-range index instead. The requirement also excludes an arriving volume sample with fields but no values, which the source would cache and later reject with "no such volume found in ceph" (met-sync.go:125-126) without indexing. The collector, the only producer of these samples in the repository, always emits one value per field and at least one field.
- MetSync.SyncSampleProcessor.Sample: the counter is unbounded; Go's `int` overflow after 2^63 samples is not modelled.
- Timestamps are integers with Go's zero time as 0; only their comparison with `!=` matters.
