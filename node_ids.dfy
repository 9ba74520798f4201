/** Node ids are `-`-separated paths; the number of segments, `id.split("-").length`,
    is the depth that the detail level is compared with. */
module NodeIds {

  const Separator: char := '-'

  /** `s.split("-")`. Splitting the empty string gives one empty segment. */
  function Split(s: string): (parts: seq<string>)
    ensures |parts| >= 1
    decreases |s|
  {
    if s == [] then [[]]
    else
      var rest := Split(s[1..]);
      if s[0] == Separator then [[]] + rest
      else [[s[0]] + rest[0]] + rest[1..]
  }

  /** `parts.join("-")`. */
  function Join(parts: seq<string>): string
    requires |parts| >= 1
  {
    if |parts| == 1 then parts[0] else parts[0] + [Separator] + Join(parts[1..])
  }

  /** The depth of a node: the number of segments of its id. Every id, the empty one
      included, has at least one segment. */
  function Depth(id: string): (d: nat)
    ensures d >= 1
  {
    |Split(id)|
  }

  /** An independent reading of depth: one more than the number of separators. */
  lemma {:induction false} DepthCountsSeparators(id: string)
    ensures Depth(id) == multiset(id)[Separator] + 1
  {
    if id != [] {
      DepthCountsSeparators(id[1..]);
      assert id == [id[0]] + id[1..];
      assert multiset(id) == multiset([id[0]]) + multiset(id[1..]);
    }
  }

  /** No segment contains the separator. */
  lemma {:induction false} SegmentsHaveNoSeparator(s: string)
    ensures forall k :: 0 <= k < |Split(s)| ==> Separator !in Split(s)[k]
  {
    if s != [] {
      SegmentsHaveNoSeparator(s[1..]);
    }
  }

  /** Joining the segments gives the id back. */
  lemma {:induction false} JoinSplit(s: string)
    ensures Join(Split(s)) == s
  {
    if s != [] {
      var rest := Split(s[1..]);
      JoinSplit(s[1..]);
      if s[0] == Separator {
        assert ([[]] + rest)[1..] == rest;
      } else if |rest| > 1 {
        var parts := [[s[0]] + rest[0]] + rest[1..];
        assert parts[1..] == rest[1..];
        assert Join(rest) == rest[0] + [Separator] + Join(rest[1..]);
        assert s == [s[0]] + s[1..];
      } else {
        assert s == [s[0]] + s[1..];
      }
    }
  }

  /** A separator-free prefix merges into the first segment. */
  lemma {:induction false} SplitPrefix(a: string, s: string)
    requires Separator !in a
    ensures Split(a + s) == [a + Split(s)[0]] + Split(s)[1..]
    decreases |a|
  {
    if a == [] {
      var parts := Split(s);
      assert a + s == s && a + parts[0] == parts[0];
      assert parts == [parts[0]] + parts[1..];
    } else {
      SplitPrefix(a[1..], s);
      var rest := Split(a[1..] + s);
      assert (a + s)[0] == a[0] && a[0] != Separator;
      assert (a + s)[1..] == a[1..] + s;
      assert Split(a + s) == [[a[0]] + rest[0]] + rest[1..];
      assert [a[0]] + (a[1..] + Split(s)[0]) == a + Split(s)[0];
    }
  }

  /** Splitting separator-free segments joined by `-` gives the segments back. */
  lemma {:induction false} SplitJoin(parts: seq<string>)
    requires |parts| >= 1
    requires forall k :: 0 <= k < |parts| ==> Separator !in parts[k]
    ensures Split(Join(parts)) == parts
  {
    if |parts| == 1 {
      SplitPrefix(parts[0], []);
      assert parts[0] + [] == parts[0];
    } else {
      var tail := Join(parts[1..]);
      SplitJoin(parts[1..]);
      assert Join(parts) == parts[0] + ([Separator] + tail);
      var rest := [Separator] + tail;
      SplitPrefix(parts[0], rest);
      assert rest[0] == Separator && rest[1..] == tail;
      assert Split(rest) == [[]] + parts[1..];
      assert Split(rest)[0] == [] && Split(rest)[1..] == parts[1..];
      assert parts[0] + [] == parts[0];
      assert parts == [parts[0]] + parts[1..];
    }
  }
}
