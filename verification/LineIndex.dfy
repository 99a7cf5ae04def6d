/** Line ranges of byte ranges, counted directly and looked up in an index (crates/workspace/src/lines.rs). */
module LineIndex {
  import opened Numbers
  import opened TextPosition

  /** The first offset, clamped to the source. */
  function First(len: nat, start: nat): (s: nat)
    ensures s <= len
  {
    Min(start, len)
  }

  /** The last offset: one before a non-empty range ends, else the first. */
  function Last(len: nat, start: nat, end: nat): (e: nat)
    ensures e <= len
  {
    var s := First(len, start);
    var e := Max(Min(end, len), s);
    if e > s then e - 1 else s
  }

  /** The free `line_range`: one plus the newlines before each end, in 32 bits. */
  function LineRange(source: Text, start: nat, end: nat): (nat, nat) {
    (DirectLine(source, First(|source|, start)), DirectLine(source, Last(|source|, start, end)))
  }

  /** Where lines start. */
  function LineStarts(source: Text): (starts: seq<nat>)
    ensures |starts| == Rows(source) + 1
    ensures forall i | 0 <= i < |starts| :: starts[i] <= |source|
  {
    if source == [] then [0]
    else LineStarts(source[..|source| - 1]) + if source[|source| - 1] == NEWLINE then [|source|] else []
  }

  datatype Index = Index(len: nat, starts: seq<nat>)

  /** `LineIndex::new`. */
  method NewIndex(source: Text) returns (index: Index)
    ensures index == Index(|source|, LineStarts(source))
  {
    var starts := [0];
    for i := 0 to |source|
      invariant starts == LineStarts(source[..i])
    {
      assert source[..i + 1][..i] == source[..i];
      if source[i] == NEWLINE {
        starts := starts + [i + 1];
      }
    }
    assert source[..|source|] == source;
    return Index(|source|, starts);
  }

  predicate Ascending(starts: seq<nat>) {
    forall i, j | 0 <= i < j < |starts| :: starts[i] < starts[j]
  }

  lemma {:induction false} StartsAscend(source: Text)
    ensures Ascending(LineStarts(source))
  {
    if source != [] {
      StartsAscend(source[..|source| - 1]);
    }
  }

  /** `partition_point`, by bisection. */
  method PartitionPoint(starts: seq<nat>, offset: nat) returns (p: nat)
    requires Ascending(starts)
    ensures p <= |starts|
    ensures forall i | 0 <= i < p :: starts[i] <= offset
    ensures forall i | p <= i < |starts| :: starts[i] > offset
  {
    var low, high := 0, |starts|;
    while low < high
      invariant 0 <= low <= high <= |starts|
      invariant forall i | 0 <= i < low :: starts[i] <= offset
      invariant forall i | high <= i < |starts| :: starts[i] > offset
    {
      var mid := low + (high - low) / 2;
      if starts[mid] <= offset {
        low := mid + 1;
      } else {
        high := mid;
      }
    }
    return low;
  }

  /** Lines that start up to an offset are the lines of the text up to it. */
  lemma {:induction false} StartsOfPrefix(source: Text, offset: nat)
    requires offset <= |source|
    ensures var before := LineStarts(source[..offset]);
            && before <= LineStarts(source)
            && forall i | |before| <= i < |LineStarts(source)| :: LineStarts(source)[i] > offset
    decreases |source|
  {
    if offset == |source| {
      assert source[..offset] == source;
    } else {
      var front := source[..|source| - 1];
      assert front[..offset] == source[..offset];
      StartsOfPrefix(front, offset);
    }
  }

  lemma WrapOnce(n: nat)
    ensures (1 + n % U32) % U32 == (1 + n) % U32
  {
  }

  /** The line of an offset, counted directly. */
  function DirectLine(source: Text, offset: nat): nat
    requires offset <= |source|
  {
    (1 + Rows(source[..offset]) % U32) % U32
  }

  /** `LineIndex::line_at`. */
  method LineAt(index: Index, ghost source: Text, offset: nat) returns (line: nat)
    requires index == Index(|source|, LineStarts(source))
    requires offset <= |source|
    ensures line == DirectLine(source, offset)
  {
    StartsAscend(source);
    var p := PartitionPoint(index.starts, offset);
    StartsOfPrefix(source, offset);
    ghost var before := LineStarts(source[..offset]);
    assert forall i | 0 <= i < |before| :: index.starts[i] == before[i];
    assert p < |index.starts| ==> index.starts[p] > offset;
    assert p > 0 ==> index.starts[p - 1] <= offset;
    assert index.starts[|before| - 1] <= offset;
    assert |before| < |index.starts| ==> index.starts[|before|] > offset;
    assert p == |before|;
    WrapOnce(Rows(source[..offset]));
    return p % U32;
  }

  /** `LineIndex::line_range` agrees with direct counting for every start and end. */
  method IndexedLineRange(index: Index, ghost source: Text, start: nat, end: nat) returns (range: (nat, nat))
    requires index == Index(|source|, LineStarts(source))
    ensures range == LineRange(source, start, end)
  {
    var first := LineAt(index, source, First(index.len, start));
    var last := LineAt(index, source, Last(index.len, start, end));
    return (first, last);
  }

  /** Nothing wraps in a source of fewer than 2^32 - 1 bytes. */
  lemma {:induction false} NothingWraps(source: Text, offset: nat)
    requires offset <= |source| < U32 - 1
    ensures DirectLine(source, offset) == 1 + Rows(source[..offset])
  {
    var n := Rows(source[..offset]);
    assert n <= offset && n % U32 == n;
  }

  /**
    For a source of fewer than 2^32 - 1 bytes: a range covers the line of its first byte to the line of
    its last byte, and one that is empty, reversed or behind the end only the line where it starts.
  */
  lemma {:induction false} LineRangeMeans(source: Text, start: nat, end: nat)
    requires |source| < U32 - 1
    ensures start < end <= |source| ==>
              LineRange(source, start, end) == (1 + Rows(source[..start]), 1 + Rows(source[..end - 1]))
    ensures start < |source| < end ==>
              LineRange(source, start, end) == (1 + Rows(source[..start]), 1 + Rows(source[..|source| - 1]))
    ensures end <= start <= |source| ==>
              LineRange(source, start, end) == (1 + Rows(source[..start]), 1 + Rows(source[..start]))
    ensures start >= |source| ==> LineRange(source, start, end) == (1 + Rows(source), 1 + Rows(source))
  {
    assert source[..|source|] == source;
    NothingWraps(source, First(|source|, start));
    NothingWraps(source, Last(|source|, start, end));
  }
}
