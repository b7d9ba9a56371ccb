/**
 * The parts of the bitflow record types that the synchronizer relies on: a
 * header of field names, a sample of values with a timestamp and string
 * tags, and the tag operations it uses. Records are values here, so a
 * bitflow `Clone` is simply the value itself.
 */
module Bitflow {

  /** A metric value (bitflow.Value). The core only copies values around. */
  type Value(==, !new)

  /** bitflow.Header: the ordered field names. */
  datatype Header = Header(fields: seq<string>)

  /** bitflow.Sample: values parallel to a header's fields, a timestamp, tags. */
  datatype Sample = Sample(values: seq<Value>, time: int, tags: map<string, string>)

  /** bitflow.SampleAndHeader: what a data source hands to its pipeline. */
  datatype SampleAndHeader = SampleAndHeader(sample: Sample, header: Header)

  /** `sample.TagMap()[key]`: the tag's value, or Go's zero string when absent. */
  function Tag(tags: map<string, string>, key: string): string
  {
    if key in tags then tags[key] else ""
  }

  /** Each name with `prefix` put in front, in the same order. */
  function Prefixed(prefix: string, names: seq<string>): (r: seq<string>)
    ensures |r| == |names|
    decreases |names|
  {
    if |names| == 0 then []
    else Prefixed(prefix, names[..|names| - 1]) + [prefix + names[|names| - 1]]
  }

  /**
   * Namespacing of field names: the i-th prefixed name starts with the prefix,
   * and stripping the prefix recovers the i-th original name.
   */
  lemma {:induction false} PrefixedAt(prefix: string, names: seq<string>, i: int)
    requires 0 <= i < |names|
    ensures Prefixed(prefix, names)[i] == prefix + names[i]
    ensures |prefix| <= |Prefixed(prefix, names)[i]|
    ensures Prefixed(prefix, names)[i][..|prefix|] == prefix
    ensures Prefixed(prefix, names)[i][|prefix|..] == names[i]
    decreases |names|
  {
    if i < |names| - 1 {
      PrefixedAt(prefix, names[..|names| - 1], i);
    }
    assert (prefix + names[i])[..|prefix|] == prefix;
    assert (prefix + names[i])[|prefix|..] == names[i];
  }

  /** Prefixing distributes over concatenation of name lists. */
  lemma PrefixedAppend(prefix: string, a: seq<string>, b: seq<string>)
    ensures Prefixed(prefix, a + b) == Prefixed(prefix, a) + Prefixed(prefix, b)
  {
    forall i | 0 <= i < |a + b|
      ensures Prefixed(prefix, a + b)[i] == (Prefixed(prefix, a) + Prefixed(prefix, b))[i]
    {
      PrefixedAt(prefix, a + b, i);
      if i < |a| {
        PrefixedAt(prefix, a, i);
      } else {
        PrefixedAt(prefix, b, i - |a|);
      }
    }
  }

  /** A tag key placed under a namespace prefix. */
  function Namespaced(prefix: string, key: string): string
  {
    prefix + key
  }

  lemma NamespacedInjective(prefix: string, a: string, b: string)
    requires Namespaced(prefix, a) == Namespaced(prefix, b)
    ensures a == b
  {
    assert a == (prefix + a)[|prefix|..];
    assert b == (prefix + b)[|prefix|..];
  }

  /** The tags of `src`, each key with `prefix` put in front. */
  function PrefixedTags(prefix: string, src: map<string, string>): (r: map<string, string>)
  {
    assert forall a, b :: Namespaced(prefix, a) == Namespaced(prefix, b) ==> a == b by {
      forall a, b | Namespaced(prefix, a) == Namespaced(prefix, b) ensures a == b {
        NamespacedInjective(prefix, a, b);
      }
    }
    map k | k in src :: Namespaced(prefix, k) := src[k]
  }

  /**
   * Namespacing of tags: every key of `src` appears prefixed with its value,
   * and every key of the result is a prefixed key of `src`, holding that
   * key's value.
   */
  lemma PrefixedTagsShape(prefix: string, src: map<string, string>)
    ensures forall k :: k in src ==> Namespaced(prefix, k) in PrefixedTags(prefix, src)
    ensures forall k :: k in src ==> PrefixedTags(prefix, src)[Namespaced(prefix, k)] == src[k]
    ensures forall key :: key in PrefixedTags(prefix, src) ==>
              |prefix| <= |key| && key[..|prefix|] == prefix && key[|prefix|..] in src &&
              key == Namespaced(prefix, key[|prefix|..]) &&
              PrefixedTags(prefix, src)[key] == src[key[|prefix|..]]
  {
    forall key | key in PrefixedTags(prefix, src)
      ensures |prefix| <= |key| && key[..|prefix|] == prefix && key[|prefix|..] in src
      ensures key == Namespaced(prefix, key[|prefix|..])
      ensures PrefixedTags(prefix, src)[key] == src[key[|prefix|..]]
    {
      var k :| k in src && key == Namespaced(prefix, k);
      assert key[|prefix|..] == k;
    }
  }

  lemma PrefixedTagsInsertKeys(prefix: string, src: map<string, string>, k: string, v: string)
    ensures PrefixedTags(prefix, src[k := v]).Keys == PrefixedTags(prefix, src).Keys + {Namespaced(prefix, k)}
    ensures PrefixedTags(prefix, src[k := v])[Namespaced(prefix, k)] == v
  {
    var bigger := src[k := v];
    PrefixedTagsShape(prefix, bigger);
    PrefixedTagsShape(prefix, src);
  }

  lemma PrefixedTagsInsertValues(prefix: string, src: map<string, string>, k: string, v: string, key: string)
    requires key in PrefixedTags(prefix, src) && key != Namespaced(prefix, k)
    ensures key in PrefixedTags(prefix, src[k := v])
    ensures PrefixedTags(prefix, src[k := v])[key] == PrefixedTags(prefix, src)[key]
  {
    PrefixedTagsShape(prefix, src[k := v]);
    PrefixedTagsShape(prefix, src);
    var j := key[|prefix|..];
    assert j != k;
  }

  /** Setting one more source tag sets one more prefixed tag. */
  lemma PrefixedTagsInsert(prefix: string, src: map<string, string>, k: string, v: string)
    ensures PrefixedTags(prefix, src[k := v]) == PrefixedTags(prefix, src)[Namespaced(prefix, k) := v]
  {
    var lhs, rhs := PrefixedTags(prefix, src[k := v]), PrefixedTags(prefix, src)[Namespaced(prefix, k) := v];
    PrefixedTagsInsertKeys(prefix, src, k, v);
    assert lhs.Keys == rhs.Keys;
    forall key | key in lhs ensures lhs[key] == rhs[key] {
      if key != Namespaced(prefix, k) {
        PrefixedTagsInsertValues(prefix, src, k, v, key);
      }
    }
    assert lhs == rhs;
  }

  lemma UpdateAfterUnion(a: map<string, string>, b: map<string, string>, key: string, v: string)
    ensures (a + b)[key := v] == a + b[key := v]
  {
  }

  /** Taking one more key of `m` out of the keys still to visit. */
  lemma ConsumeOne(m: map<string, string>, todo: set<string>, k: string)
    requires k in todo && k in m
    ensures (m - todo)[k := m[k]] == m - (todo - {k})
  {
    var lhs, rhs := (m - todo)[k := m[k]], m - (todo - {k});
    assert lhs.Keys == rhs.Keys;
    forall key | key in lhs ensures lhs[key] == rhs[key] {
    }
  }

  /** One `SetTag` of the loop below: the tags set so far grow by one source tag. */
  lemma SetTagsStep(base: map<string, string>, prefix: string, done: map<string, string>, k: string, v: string)
    ensures (base + PrefixedTags(prefix, done))[Namespaced(prefix, k) := v] == base + PrefixedTags(prefix, done[k := v])
  {
    PrefixedTagsInsert(prefix, done, k, v);
    UpdateAfterUnion(base, PrefixedTags(prefix, done), Namespaced(prefix, k), v);
  }

  /**
   * The `for k, v := range src { s.SetTag(prefix + k, v) }` loop: every tag of
   * `src` is set on the sample under its prefixed key, overwriting a tag of
   * the same name; values and timestamp are untouched. Map iteration order
   * does not matter, since distinct keys stay distinct after prefixing.
   */
  method SetTags(s: Sample, prefix: string, src: map<string, string>) returns (r: Sample)
    ensures r == s.(tags := s.tags + PrefixedTags(prefix, src))
  {
    var tags := s.tags;
    var todo := src.Keys;
    while todo != {}
      invariant todo <= src.Keys
      invariant tags == s.tags + PrefixedTags(prefix, src - todo)
      decreases todo
    {
      var k :| k in todo;
      SetTagsStep(s.tags, prefix, src - todo, k, src[k]);
      ConsumeOne(src, todo, k);
      tags := tags[Namespaced(prefix, k) := src[k]];
      todo := todo - {k};
    }
    assert src - {} == src;
    r := s.(tags := tags);
  }
}
