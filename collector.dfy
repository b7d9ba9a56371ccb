/**
 * The per-image grouping of scraped ceph metrics. The regular expression
 * turns the scraped text into rows (metric name, pool, namespace, image and
 * value); the rows are folded into one group per distinct image, in order of
 * first appearance, and one sample is emitted per group.
 */
module Collector {
  import opened Bitflow

  /**
   * One match of the metric pattern: capture groups 2 (metric name), 12
   * (pool), 14 (namespace), 16 (image), and the value of group 17 as parsed.
   */
  datatype Row = Row(metric: string, pool: string, namespace: string, image: string, value: Value)

  /** Samples: the rows of one image gathered so far. */
  datatype Samples = Samples(
    imageName: string,
    header: seq<string>,
    metric: seq<Value>,
    tags: map<string, string>,
    timeVal: int)

  /** The image of each row, in row order. */
  function Images(rows: seq<Row>): (r: seq<string>)
    ensures |r| == |rows|
  {
    seq(|rows|, i requires 0 <= i < |rows| => rows[i].image)
  }

  /** The image name of each group, in group order. */
  function Names(groups: seq<Samples>): (r: seq<string>)
    ensures |r| == |groups|
  {
    seq(|groups|, j requires 0 <= j < |groups| => groups[j].imageName)
  }

  /** Position of the first occurrence of `x`. */
  function IndexOf(xs: seq<string>, x: string): (i: nat)
    requires x in xs
    ensures i < |xs| && xs[i] == x
    ensures forall j :: 0 <= j < i ==> xs[j] != x
  {
    if xs[0] == x then 0 else 1 + IndexOf(xs[1..], x)
  }

  /** The distinct elements of `xs`, in order of first appearance. */
  function Dedup(xs: seq<string>): seq<string>
    decreases |xs|
  {
    if xs == [] then []
    else
      var d := Dedup(xs[..|xs| - 1]);
      if xs[|xs| - 1] in d then d else d + [xs[|xs| - 1]]
  }

  /** Metric names of the rows of image `img`, in row order. */
  function MetricsOf(rows: seq<Row>, img: string): seq<string>
    decreases |rows|
  {
    if rows == [] then []
    else
      var last := rows[|rows| - 1];
      MetricsOf(rows[..|rows| - 1], img) + (if last.image == img then [last.metric] else [])
  }

  /** Values of the rows of image `img`, in row order. */
  function ValuesOf(rows: seq<Row>, img: string): seq<Value>
    decreases |rows|
  {
    if rows == [] then []
    else
      var last := rows[|rows| - 1];
      ValuesOf(rows[..|rows| - 1], img) + (if last.image == img then [last.value] else [])
  }

  /** The tags a group takes from the row that opens it. */
  function GroupTags(row: Row, sourceName: string): map<string, string>
  {
    map["pool" := row.pool, "namespace" := row.namespace, "image" := row.image, "sourceName" := sourceName]
  }

  /**
   * The group the fold produces for image `img`: the metric names and values
   * of its rows, the tags of its first row, the collection time.
   */
  function GroupOf(rows: seq<Row>, img: string, sourceName: string, timeVal: int): Samples
    requires img in Images(rows)
  {
    Samples(img, MetricsOf(rows, img), ValuesOf(rows, img),
            GroupTags(rows[IndexOf(Images(rows), img)], sourceName), timeVal)
  }

  /** The number of header entries across all groups. */
  function TotalHeaders(groups: seq<Samples>): nat
    decreases |groups|
  {
    if groups == [] then 0 else TotalHeaders(groups[..|groups| - 1]) + |groups[|groups| - 1].header|
  }

  // ---------------------------------------------------------------------
  // Facts about the reference definitions

  lemma ImagesSnoc(rows: seq<Row>, i: nat)
    requires i < |rows|
    ensures Images(rows[..i + 1]) == Images(rows[..i]) + [rows[i].image]
  {
  }

  lemma {:induction false} IndexOfAppend(xs: seq<string>, ys: seq<string>, x: string)
    requires x in xs
    ensures IndexOf(xs + ys, x) == IndexOf(xs, x)
    decreases |xs|
  {
    if xs[0] != x {
      assert (xs + ys)[1..] == xs[1..] + ys;
      IndexOfAppend(xs[1..], ys, x);
    }
  }

  lemma IndexOfAppendNew(xs: seq<string>, x: string)
    requires x !in xs
    ensures IndexOf(xs + [x], x) == |xs|
  {
    assert (xs + [x])[|xs|] == x;
  }

  /** Every element of a dedup occurs in the input and every input element is kept. */
  lemma {:induction false} DedupMembers(xs: seq<string>)
    ensures forall x :: x in Dedup(xs) <==> x in xs
    decreases |xs|
  {
    if xs != [] {
      var init := xs[..|xs| - 1];
      DedupMembers(init);
      assert xs == init + [xs[|xs| - 1]];
    }
  }

  /** No element appears twice in a dedup. */
  lemma {:induction false} DedupDistinct(xs: seq<string>)
    ensures forall j, k :: 0 <= j < k < |Dedup(xs)| ==> Dedup(xs)[j] != Dedup(xs)[k]
    decreases |xs|
  {
    if xs != [] {
      DedupDistinct(xs[..|xs| - 1]);
    }
  }

  /** A dedup lists elements in the order of their first occurrence. */
  lemma {:induction false} DedupOrder(xs: seq<string>)
    ensures forall x :: x in Dedup(xs) ==> x in xs
    ensures forall j, k :: 0 <= j < k < |Dedup(xs)| ==> IndexOf(xs, Dedup(xs)[j]) < IndexOf(xs, Dedup(xs)[k])
    decreases |xs|
  {
    if xs != [] {
      var init, x := xs[..|xs| - 1], xs[|xs| - 1];
      assert xs == init + [x];
      DedupOrder(init);
      DedupOrderSnoc(init, x);
    }
  }

  lemma DedupOrderSnoc(init: seq<string>, x: string)
    requires forall y :: y in Dedup(init) ==> y in init
    requires forall j, k :: 0 <= j < k < |Dedup(init)| ==> IndexOf(init, Dedup(init)[j]) < IndexOf(init, Dedup(init)[k])
    ensures forall y :: y in Dedup(init + [x]) ==> y in init + [x]
    ensures forall j, k :: 0 <= j < k < |Dedup(init + [x])| ==>
              IndexOf(init + [x], Dedup(init + [x])[j]) < IndexOf(init + [x], Dedup(init + [x])[k])
  {
    var xs := init + [x];
    var d := Dedup(init);
    DedupSnoc(init, x);
    DedupMembers(xs);
    forall j | 0 <= j < |d| ensures IndexOf(xs, d[j]) == IndexOf(init, d[j]) {
      IndexOfAppend(init, [x], d[j]);
    }
    if x !in init {
      IndexOfAppendNew(init, x);
      DedupOrderSnocNew(init, x, d);
    }
  }

  lemma DedupOrderSnocNew(init: seq<string>, x: string, d: seq<string>)
    requires d == Dedup(init) && x !in init
    requires forall y :: y in d ==> y in init
    requires forall j, k :: 0 <= j < k < |d| ==> IndexOf(init, d[j]) < IndexOf(init, d[k])
    requires forall j :: 0 <= j < |d| ==> IndexOf(init + [x], d[j]) == IndexOf(init, d[j])
    requires IndexOf(init + [x], x) == |init|
    ensures forall j, k :: 0 <= j < k < |d + [x]| ==> IndexOf(init + [x], (d + [x])[j]) < IndexOf(init + [x], (d + [x])[k])
  {
    forall j, k | 0 <= j < k < |d + [x]|
      ensures IndexOf(init + [x], (d + [x])[j]) < IndexOf(init + [x], (d + [x])[k])
    {
      assert (d + [x])[j] == d[j];
      if k < |d| {
        assert (d + [x])[k] == d[k];
      } else {
        assert (d + [x])[k] == x;
      }
    }
  }

  lemma {:induction false} DedupSnoc(xs: seq<string>, x: string)
    ensures Dedup(xs + [x]) == if x in xs then Dedup(xs) else Dedup(xs) + [x]
  {
    assert (xs + [x])[..|xs|] == xs;
    DedupMembers(xs);
  }

  /** An image with no rows has no metric names and no values. */
  lemma {:induction false} OfAbsent(rows: seq<Row>, img: string)
    requires img !in Images(rows)
    ensures MetricsOf(rows, img) == [] && ValuesOf(rows, img) == []
    decreases |rows|
  {
    if rows != [] {
      var init := rows[..|rows| - 1];
      assert forall i :: 0 <= i < |init| ==> Images(init)[i] == Images(rows)[i];
      OfAbsent(init, img);
      assert Images(rows)[|rows| - 1] == rows[|rows| - 1].image;
    }
  }

  /** An image with rows has as many values as metric names, and at least one. */
  lemma {:induction false} OfPresent(rows: seq<Row>, img: string)
    ensures |MetricsOf(rows, img)| == |ValuesOf(rows, img)|
    ensures img in Images(rows) ==> |MetricsOf(rows, img)| >= 1
    decreases |rows|
  {
    if rows != [] {
      var init := rows[..|rows| - 1];
      assert forall i :: 0 <= i < |init| ==> Images(init)[i] == Images(rows)[i];
      OfPresent(init, img);
      if img in Images(rows) && rows[|rows| - 1].image != img {
        var i :| 0 <= i < |rows| && Images(rows)[i] == img;
        assert i < |init| && Images(init)[i] == img;
      }
    }
  }

  lemma OfSnoc(rows: seq<Row>, i: nat, img: string)
    requires i < |rows|
    ensures MetricsOf(rows[..i + 1], img) == MetricsOf(rows[..i], img) + (if rows[i].image == img then [rows[i].metric] else [])
    ensures ValuesOf(rows[..i + 1], img) == ValuesOf(rows[..i], img) + (if rows[i].image == img then [rows[i].value] else [])
  {
    assert rows[..i + 1][..i] == rows[..i];
  }

  lemma NamesSnoc(groups: seq<Samples>, g: Samples)
    ensures Names(groups + [g]) == Names(groups) + [g.imageName]
  {
  }

  lemma NamesUpdate(groups: seq<Samples>, j: nat, g: Samples)
    requires j < |groups| && g.imageName == groups[j].imageName
    ensures Names(groups[j := g]) == Names(groups)
  {
    assert forall k :: 0 <= k < |groups| ==> Names(groups[j := g])[k] == Names(groups)[k];
  }

  lemma TotalSnoc(groups: seq<Samples>, g: Samples)
    ensures TotalHeaders(groups + [g]) == TotalHeaders(groups) + |g.header|
  {
    assert (groups + [g])[..|groups|] == groups;
  }

  /** Replacing one group changes the total by the change in its header length. */
  lemma {:induction false} TotalUpdate(groups: seq<Samples>, j: nat, g: Samples)
    requires j < |groups|
    ensures TotalHeaders(groups[j := g]) + |groups[j].header| == TotalHeaders(groups) + |g.header|
    decreases |groups|
  {
    var n := |groups| - 1;
    if j < n {
      assert groups[j := g][..n] == groups[..n][j := g];
      TotalUpdate(groups[..n], j, g);
    } else {
      assert groups[j := g][..n] == groups[..n];
    }
  }

  // ---------------------------------------------------------------------
  // The collector's loops

  /** checkSample: the first group of image `imageName`, or -1 when there is none. */
  method CheckSample(samples: seq<Samples>, imageName: string) returns (index: int)
    ensures -1 <= index < |samples|
    ensures index >= 0 ==> samples[index].imageName == imageName
    ensures index >= 0 ==> forall j :: 0 <= j < index ==> samples[j].imageName != imageName
    ensures index == -1 <==> forall j :: 0 <= j < |samples| ==> samples[j].imageName != imageName
  {
    for i := 0 to |samples|
      invariant forall j :: 0 <= j < i ==> samples[j].imageName != imageName
    {
      if samples[i].imageName == imageName {
        return i;
      }
    }
    return -1;
  }

  /** The invariant of the grouping loop after the first `i` rows. */
  ghost predicate Grouped(rows: seq<Row>, i: nat, sampleArr: seq<Samples>, sourceName: string, timeVal: int)
    requires i <= |rows|
  {
    && Names(sampleArr) == Dedup(Images(rows[..i]))
    && GroupsMatch(rows, i, sampleArr, sourceName, timeVal)
    && TotalHeaders(sampleArr) == i
  }

  /** Each group is the fold of the first `i` rows of its image. */
  ghost predicate GroupsMatch(rows: seq<Row>, i: nat, sampleArr: seq<Samples>, sourceName: string, timeVal: int)
    requires i <= |rows|
  {
    forall j :: 0 <= j < |sampleArr| ==>
      sampleArr[j].imageName in Images(rows[..i]) &&
      sampleArr[j] == GroupOf(rows[..i], sampleArr[j].imageName, sourceName, timeVal)
  }

  /** A group with one more row of its image appended. */
  function Extend(g: Samples, row: Row): Samples
  {
    g.(metric := g.metric + [row.value], header := g.header + [row.metric])
  }

  /** One more row changes only the group of its own image, by one name and one value. */
  lemma GroupOfSnoc(rows: seq<Row>, i: nat, img: string, sourceName: string, timeVal: int)
    requires i < |rows| && img in Images(rows[..i])
    ensures img in Images(rows[..i + 1])
    ensures var g := GroupOf(rows[..i], img, sourceName, timeVal);
            GroupOf(rows[..i + 1], img, sourceName, timeVal) ==
              if rows[i].image == img then Extend(g, rows[i]) else g
  {
    ImagesSnoc(rows, i);
    IndexOfAppend(Images(rows[..i]), [rows[i].image], img);
    OfSnoc(rows, i, img);
    var p := IndexOf(Images(rows[..i]), img);
    assert rows[..i + 1][p] == rows[..i][p];
  }

  /** The row that opens a group gives it its single name, value and tags. */
  lemma GroupOfNew(rows: seq<Row>, i: nat, sourceName: string, timeVal: int)
    requires i < |rows| && rows[i].image !in Images(rows[..i])
    ensures rows[i].image in Images(rows[..i + 1])
    ensures GroupOf(rows[..i + 1], rows[i].image, sourceName, timeVal) ==
              Samples(rows[i].image, [rows[i].metric], [rows[i].value], GroupTags(rows[i], sourceName), timeVal)
  {
    ImagesSnoc(rows, i);
    OfAbsent(rows[..i], rows[i].image);
    OfSnoc(rows, i, rows[i].image);
    IndexOfAppendNew(Images(rows[..i]), rows[i].image);
    assert rows[..i + 1][i] == rows[i];
  }

  /** The image of row `i` names at most the group at `index`. */
  lemma FoundOnlyAt(rows: seq<Row>, i: nat, sampleArr: seq<Samples>, index: nat)
    requires i < |rows| && Names(sampleArr) == Dedup(Images(rows[..i]))
    requires index < |sampleArr| && sampleArr[index].imageName == rows[i].image
    ensures rows[i].image in Images(rows[..i])
    ensures forall j :: 0 <= j < |sampleArr| && j != index ==> sampleArr[j].imageName != rows[i].image
  {
    DedupMembers(Images(rows[..i]));
    DedupDistinct(Images(rows[..i]));
    assert Names(sampleArr)[index] == rows[i].image;
    forall j | 0 <= j < |sampleArr| && j != index
      ensures sampleArr[j].imageName != rows[i].image
    {
      assert Names(sampleArr)[j] == sampleArr[j].imageName;
    }
  }

  /** Row `i` extends the group of its image and leaves the others as they were. */
  lemma GroupsAfterRow(rows: seq<Row>, i: nat, before: seq<Samples>, after: seq<Samples>, sourceName: string, timeVal: int)
    requires i < |rows| && GroupsMatch(rows, i, before, sourceName, timeVal) && |after| == |before|
    requires forall j :: 0 <= j < |before| ==>
               after[j] == if before[j].imageName == rows[i].image then Extend(before[j], rows[i]) else before[j]
    ensures GroupsMatch(rows, i + 1, after, sourceName, timeVal)
  {
    forall j | 0 <= j < |after|
      ensures after[j].imageName in Images(rows[..i + 1])
      ensures after[j] == GroupOf(rows[..i + 1], after[j].imageName, sourceName, timeVal)
    {
      GroupOfSnoc(rows, i, before[j].imageName, sourceName, timeVal);
    }
  }

  /** A row whose image already has a group extends that group. */
  lemma GroupStepFound(rows: seq<Row>, i: nat, sampleArr: seq<Samples>, index: nat, sourceName: string, timeVal: int)
    requires i < |rows| && Grouped(rows, i, sampleArr, sourceName, timeVal)
    requires index < |sampleArr| && sampleArr[index].imageName == rows[i].image
    ensures Grouped(rows, i + 1, sampleArr[index := Extend(sampleArr[index], rows[i])], sourceName, timeVal)
  {
    var g' := Extend(sampleArr[index], rows[i]);
    var arr := sampleArr[index := g'];
    FoundOnlyAt(rows, i, sampleArr, index);
    ImagesSnoc(rows, i);
    DedupSnoc(Images(rows[..i]), rows[i].image);
    NamesUpdate(sampleArr, index, g');
    GroupsAfterRow(rows, i, sampleArr, arr, sourceName, timeVal);
    TotalUpdate(sampleArr, index, g');
  }

  /** A row whose image has no group yet opens a new group at the end. */
  lemma GroupStepNew(rows: seq<Row>, i: nat, sampleArr: seq<Samples>, sourceName: string, timeVal: int)
    requires i < |rows| && Grouped(rows, i, sampleArr, sourceName, timeVal)
    requires rows[i].image !in Names(sampleArr)
    ensures Grouped(rows, i + 1,
                    sampleArr + [Samples(rows[i].image, [rows[i].metric], [rows[i].value], GroupTags(rows[i], sourceName), timeVal)],
                    sourceName, timeVal)
  {
    var row := rows[i];
    var images := Images(rows[..i]);
    DedupMembers(images);
    ImagesSnoc(rows, i);
    DedupSnoc(images, row.image);
    var sampleObj := Samples(row.image, [row.metric], [row.value], GroupTags(row, sourceName), timeVal);
    TotalSnoc(sampleArr, sampleObj);
    NamesSnoc(sampleArr, sampleObj);
    NotInNames(sampleArr, row.image);
    GroupsAfterRow(rows, i, sampleArr, sampleArr, sourceName, timeVal);
    GroupOfNew(rows, i, sourceName, timeVal);
    GroupsMatchSnoc(rows, i + 1, sampleArr, sampleObj, sourceName, timeVal);
  }

  /** An image is among the group names exactly when some group carries it. */
  lemma NotInNames(groups: seq<Samples>, img: string)
    ensures img !in Names(groups) <==> forall j :: 0 <= j < |groups| ==> groups[j].imageName != img
  {
    if img in Names(groups) {
      var j :| 0 <= j < |groups| && Names(groups)[j] == img;
      assert groups[j].imageName == img;
    }
    forall j | 0 <= j < |groups| ensures Names(groups)[j] == groups[j].imageName {
    }
  }

  lemma GroupsMatchSnoc(rows: seq<Row>, i: nat, groups: seq<Samples>, g: Samples, sourceName: string, timeVal: int)
    requires i <= |rows| && GroupsMatch(rows, i, groups, sourceName, timeVal)
    requires g.imageName in Images(rows[..i]) && g == GroupOf(rows[..i], g.imageName, sourceName, timeVal)
    ensures GroupsMatch(rows, i, groups + [g], sourceName, timeVal)
  {
    var arr := groups + [g];
    forall j | 0 <= j < |arr|
      ensures arr[j].imageName in Images(rows[..i])
      ensures arr[j] == GroupOf(rows[..i], arr[j].imageName, sourceName, timeVal)
    {
      if j < |groups| {
        assert arr[j] == groups[j];
      }
    }
  }

  /** Once every row has been consumed: the groups are the distinct images in first-occurrence order. */
  lemma GroupedOrder(rows: seq<Row>, sampleArr: seq<Samples>)
    requires Names(sampleArr) == Dedup(Images(rows))
    ensures forall j, k :: 0 <= j < k < |sampleArr| ==> sampleArr[j].imageName != sampleArr[k].imageName
    ensures forall j :: 0 <= j < |sampleArr| ==> sampleArr[j].imageName in Images(rows)
    ensures forall i :: 0 <= i < |rows| ==> rows[i].image in Names(sampleArr)
    ensures forall j, k :: 0 <= j < k < |sampleArr| ==>
              IndexOf(Images(rows), sampleArr[j].imageName) < IndexOf(Images(rows), sampleArr[k].imageName)
  {
    var d := Dedup(Images(rows));
    DedupDistinct(Images(rows));
    DedupOrder(Images(rows));
    DedupMembers(Images(rows));
    assert forall j :: 0 <= j < |sampleArr| ==> sampleArr[j].imageName == d[j];
    forall i | 0 <= i < |rows| ensures rows[i].image in Names(sampleArr) {
      assert Images(rows)[i] == rows[i].image;
    }
  }

  /** Once every row has been consumed: each group is the fold of its image's rows. */
  lemma GroupedShape(rows: seq<Row>, sampleArr: seq<Samples>, sourceName: string, timeVal: int)
    requires Grouped(rows, |rows|, sampleArr, sourceName, timeVal)
    ensures Names(sampleArr) == Dedup(Images(rows))
    ensures forall j :: 0 <= j < |sampleArr| ==>
              sampleArr[j].imageName in Images(rows) &&
              sampleArr[j] == GroupOf(rows, sampleArr[j].imageName, sourceName, timeVal)
    ensures forall j :: 0 <= j < |sampleArr| ==> |sampleArr[j].header| == |sampleArr[j].metric| >= 1
    ensures TotalHeaders(sampleArr) == |rows|
  {
    assert rows[..|rows|] == rows;
    forall j | 0 <= j < |sampleArr|
      ensures |sampleArr[j].header| == |sampleArr[j].metric| >= 1
    {
      OfPresent(rows, sampleArr[j].imageName);
    }
  }

  /** What the loop invariant gives once every row has been consumed. */
  lemma GroupedComplete(rows: seq<Row>, sampleArr: seq<Samples>, sourceName: string, timeVal: int)
    requires Grouped(rows, |rows|, sampleArr, sourceName, timeVal)
    ensures Names(sampleArr) == Dedup(Images(rows))
    ensures forall j, k :: 0 <= j < k < |sampleArr| ==> sampleArr[j].imageName != sampleArr[k].imageName
    ensures forall j :: 0 <= j < |sampleArr| ==> sampleArr[j].imageName in Images(rows)
    ensures forall i :: 0 <= i < |rows| ==> rows[i].image in Names(sampleArr)
    ensures forall j, k :: 0 <= j < k < |sampleArr| ==>
              IndexOf(Images(rows), sampleArr[j].imageName) < IndexOf(Images(rows), sampleArr[k].imageName)
    ensures forall j :: 0 <= j < |sampleArr| ==>
              sampleArr[j] == GroupOf(rows, sampleArr[j].imageName, sourceName, timeVal)
    ensures forall j :: 0 <= j < |sampleArr| ==> |sampleArr[j].header| == |sampleArr[j].metric| >= 1
    ensures TotalHeaders(sampleArr) == |rows|
  {
    GroupedShape(rows, sampleArr, sourceName, timeVal);
    GroupedOrder(rows, sampleArr);
  }

  /**
   * The grouping loop of generateSamples: one group per distinct image, in
   * order of first appearance; a group's header and values are the metric
   * names and values of its image's rows, in row order, and its tags come
   * from the image's first row.
   */
  method GroupRows(rows: seq<Row>, sourceName: string, timeVal: int) returns (sampleArr: seq<Samples>)
    ensures Names(sampleArr) == Dedup(Images(rows))
    ensures forall j, k :: 0 <= j < k < |sampleArr| ==> sampleArr[j].imageName != sampleArr[k].imageName
    ensures forall j :: 0 <= j < |sampleArr| ==> sampleArr[j].imageName in Images(rows)
    ensures forall i :: 0 <= i < |rows| ==> rows[i].image in Names(sampleArr)
    ensures forall j, k :: 0 <= j < k < |sampleArr| ==>
              IndexOf(Images(rows), sampleArr[j].imageName) < IndexOf(Images(rows), sampleArr[k].imageName)
    ensures forall j :: 0 <= j < |sampleArr| ==>
              sampleArr[j] == GroupOf(rows, sampleArr[j].imageName, sourceName, timeVal)
    ensures forall j :: 0 <= j < |sampleArr| ==> |sampleArr[j].header| == |sampleArr[j].metric| >= 1
    ensures TotalHeaders(sampleArr) == |rows|
  {
    sampleArr := [];
    assert rows[..0] == [];
    for i := 0 to |rows|
      invariant Grouped(rows, i, sampleArr, sourceName, timeVal)
    {
      sampleArr := GroupRow(rows, i, sampleArr, sourceName, timeVal);
    }
    GroupedComplete(rows, sampleArr, sourceName, timeVal);
  }

  /**
   * One iteration of the grouping loop: row `i` is appended to the group of
   * its image, found by checkSample, or opens a new group at the end.
   */
  method GroupRow(rows: seq<Row>, i: nat, sampleArr: seq<Samples>, sourceName: string, timeVal: int) returns (next: seq<Samples>)
    requires i < |rows| && Grouped(rows, i, sampleArr, sourceName, timeVal)
    ensures Grouped(rows, i + 1, next, sourceName, timeVal)
  {
    var index := CheckSample(sampleArr, rows[i].image);
    if index != -1 {
      GroupStepFound(rows, i, sampleArr, index, sourceName, timeVal);
      next := sampleArr[index := Extend(sampleArr[index], rows[i])];
    } else {
      NotInNames(sampleArr, rows[i].image);
      GroupStepNew(rows, i, sampleArr, sourceName, timeVal);
      var sampleObj := Samples(rows[i].image, [rows[i].metric], [rows[i].value], GroupTags(rows[i], sourceName), timeVal);
      next := sampleArr + [sampleObj];
    }
  }

  /**
   * The emission loop of generateSamples: one sample per group, in group
   * order, with the group's names as fields, its values, its time and its tags.
   */
  method EmitSamples(sampleArr: seq<Samples>) returns (emitted: seq<SampleAndHeader>)
    ensures |emitted| == |sampleArr|
    ensures forall i :: 0 <= i < |sampleArr| ==>
              && emitted[i].header.fields == sampleArr[i].header
              && emitted[i].sample.values == sampleArr[i].metric
              && emitted[i].sample.time == sampleArr[i].timeVal
              && emitted[i].sample.tags == sampleArr[i].tags
  {
    emitted := [];
    for i := 0 to |sampleArr|
      invariant |emitted| == i
      invariant forall j :: 0 <= j < i ==> emitted[j] == Emission(sampleArr[j])
    {
      var exampleHeader := Header(sampleArr[i].header);
      var exampleSample := EmitOne(sampleArr[i]);
      emitted := emitted + [SampleAndHeader(exampleSample, exampleHeader)];
    }
  }

  /** The record emitted for a group. */
  function Emission(g: Samples): SampleAndHeader
  {
    SampleAndHeader(Sample(g.metric, g.timeVal, g.tags), Header(g.header))
  }

  /** The sample of one group, its tags set one by one (`exampleSample.SetTag(k, v)`). */
  method EmitOne(g: Samples) returns (exampleSample: Sample)
    ensures exampleSample == Emission(g).sample
  {
    exampleSample := Sample(g.metric, g.timeVal, map[]);
    var todo := g.tags.Keys;
    while todo != {}
      invariant todo <= g.tags.Keys
      invariant exampleSample == Sample(g.metric, g.timeVal, g.tags - todo)
      decreases todo
    {
      var k :| k in todo;
      ConsumeOne(g.tags, todo, k);
      exampleSample := exampleSample.(tags := exampleSample.tags[k := g.tags[k]]);
      todo := todo - {k};
    }
    assert g.tags - {} == g.tags;
  }

  /**
   * generateSamples after the regular expression: one sample per distinct
   * image of the rows, in order of first appearance, whose fields and values
   * are that image's metric names and values in row order and whose tags
   * are pool, namespace and image of its first row and the source name.
   */
  method GenerateSamples(rows: seq<Row>, sourceName: string, timeVal: int) returns (emitted: seq<SampleAndHeader>)
    ensures |emitted| == |Dedup(Images(rows))|
    ensures forall j :: 0 <= j < |emitted| ==>
              var img := Dedup(Images(rows))[j];
              && img in Images(rows)
              && emitted[j].header.fields == MetricsOf(rows, img)
              && emitted[j].sample.values == ValuesOf(rows, img)
              && emitted[j].sample.time == timeVal
              && emitted[j].sample.tags == GroupTags(rows[IndexOf(Images(rows), img)], sourceName)
  {
    var sampleArr := GroupRows(rows, sourceName, timeVal);
    emitted := EmitSamples(sampleArr);
    assert forall j :: 0 <= j < |sampleArr| ==> Dedup(Images(rows))[j] == Names(sampleArr)[j] == sampleArr[j].imageName;
  }
}
