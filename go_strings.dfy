/**
 * Go's `strings.Split(s, sep)` for a one-character separator, the only form
 * the synchronizer uses (`strings.Split(x, "|")`), and `strings.Join` as its
 * inverse.
 */
module GoStrings {

  /**
   * strings.Split: the pieces of `s` between occurrences of `sep`, left to
   * right. As in Go, the result is never empty: `Split("", '|') == [""]`, and
   * a string without a separator splits into itself.
   */
  function Split(s: string, sep: char): (parts: seq<string>)
    ensures |parts| >= 1
    ensures forall i :: 0 <= i < |parts| ==> sep !in parts[i]
    decreases |s|
  {
    if |s| == 0 then [""]
    else
      var rest := Split(s[1..], sep);
      if s[0] == sep then [""] + rest
      else [[s[0]] + rest[0]] + rest[1..]
  }

  /** strings.Join: the pieces of `parts`, with `sep` between neighbours. */
  function Join(parts: seq<string>, sep: char): string
    requires |parts| >= 1
    decreases |parts|
  {
    if |parts| == 1 then parts[0] else parts[0] + [sep] + Join(parts[1..], sep)
  }

  /** Number of occurrences of `c` in `s`. */
  function Count(s: string, c: char): nat
    decreases |s|
  {
    if |s| == 0 then 0 else (if s[0] == c then 1 else 0) + Count(s[1..], c)
  }

  /** Joining the pieces of a split gives back the original string. */
  lemma {:induction false} JoinOfSplit(s: string, sep: char)
    ensures Join(Split(s, sep), sep) == s
    decreases |s|
  {
    if |s| > 0 {
      var rest := Split(s[1..], sep);
      JoinOfSplit(s[1..], sep);
      if s[0] == sep {
        assert Split(s, sep) == [""] + rest;
        assert ([""] + rest)[1..] == rest;
        assert s == [s[0]] + s[1..];
      } else if |rest| == 1 {
        assert s == [s[0]] + s[1..];
      } else {
        var parts := Split(s, sep);
        assert parts[1..] == rest[1..];
        assert Join(rest, sep) == rest[0] + [sep] + Join(rest[1..], sep);
        assert s == [s[0]] + s[1..];
      }
    }
  }

  /** A separator-free prefix glues onto the first piece of what follows it. */
  lemma {:induction false} SplitSeparatorFreePrefix(p: string, tail: string, sep: char)
    requires sep !in p
    ensures Split(p + tail, sep) == [p + Split(tail, sep)[0]] + Split(tail, sep)[1..]
    decreases |p|
  {
    if |p| == 0 {
      var t := Split(tail, sep);
      assert p + tail == tail && p + t[0] == t[0];
      assert t == [t[0]] + t[1..];
    } else {
      SplitSeparatorFreePrefix(p[1..], tail, sep);
      var t := Split(tail, sep);
      var rest := Split(p[1..] + tail, sep);
      assert (p + tail)[0] == p[0] && p[0] != sep;
      assert (p + tail)[1..] == p[1..] + tail;
      assert Split(p + tail, sep) == [[p[0]] + rest[0]] + rest[1..];
      assert rest[0] == p[1..] + t[0] && rest[1..] == t[1..];
      assert [p[0]] + (p[1..] + t[0]) == p + t[0];
    }
  }

  /** Splitting a join of separator-free pieces gives back the pieces. */
  lemma {:induction false} SplitOfJoin(parts: seq<string>, sep: char)
    requires |parts| >= 1
    requires forall i :: 0 <= i < |parts| ==> sep !in parts[i]
    ensures Split(Join(parts, sep), sep) == parts
    decreases |parts|
  {
    SplitSeparatorFreePrefix(parts[0], "", sep);
    assert parts[0] + "" == parts[0];
    if |parts| > 1 {
      var j := Join(parts[1..], sep);
      SplitOfJoin(parts[1..], sep);
      assert Split([sep] + j, sep) == [""] + parts[1..];
      assert parts[0] + [sep] + j == parts[0] + ([sep] + j);
      SplitSeparatorFreePrefix(parts[0], [sep] + j, sep);
      assert parts == [parts[0]] + parts[1..];
    }
  }

  /** A string without a separator is its own only piece. */
  lemma SplitWithoutSeparator(s: string, sep: char)
    requires sep !in s
    ensures Split(s, sep) == [s]
  {
    SplitOfJoin([s], sep);
  }

  /** There is one more piece than there are separators. */
  lemma {:induction false} SplitLength(s: string, sep: char)
    ensures |Split(s, sep)| == Count(s, sep) + 1
    decreases |s|
  {
    if |s| > 0 {
      SplitLength(s[1..], sep);
    }
  }
}
