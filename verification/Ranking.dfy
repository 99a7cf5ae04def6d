/**
  Counts reported largest first and truncated, in whatever order a hash map yields them
  (crates/workspace/src/audit.rs).
*/
module Ranking {
  import opened Numbers

  predicate Distinct<K(==,!new)>(ks: seq<K>) {
    forall i, j | 0 <= i < j < |ks| :: ks[i] != ks[j]
  }

  predicate Descending<K(==,!new)>(counts: map<K, nat>, ks: seq<K>) {
    && (forall k | k in ks :: k in counts)
    && (forall i, j | 0 <= i < j < |ks| :: counts[ks[i]] >= counts[ks[j]])
  }

  /**
    `order` are the `limit` keys with the largest counts, largest first: as many as there can be, none
    twice, and none left out that counts more than one reported.
  */
  predicate Top<K(==,!new)>(counts: map<K, nat>, limit: nat, order: seq<K>) {
    && |order| == Min(limit, |counts|) && Distinct(order) && Descending(counts, order)
    && forall k, j | k in counts && k !in order && 0 <= j < |order| :: counts[k] <= counts[order[j]]
  }

  /** The keys of a map, each once, in some order. */
  method Keys<K(==,!new)>(counts: map<K, nat>) returns (ks: seq<K>)
    ensures Distinct(ks) && |ks| == |counts| && forall k :: k in ks <==> k in counts
  {
    ks := [];
    var rest := counts.Keys;
    while rest != {}
      invariant rest <= counts.Keys && Distinct(ks)
      invariant |ks| + |rest| == |counts|
      invariant forall k :: k in ks <==> k in counts && k !in rest
      decreases |rest|
    {
      var k :| k in rest;
      ks := ks + [k];
      rest := rest - {k};
    }
  }

  /** One step of the stable sort by descending count. */
  function InsertByCount<K(==,!new)>(counts: map<K, nat>, k: K, sorted: seq<K>): (r: seq<K>)
    requires k in counts && forall x | x in sorted :: x in counts
    ensures |r| == |sorted| + 1 && forall x :: x in r <==> x == k || x in sorted
  {
    if sorted == [] || counts[k] >= counts[sorted[0]] then [k] + sorted
    else
      assert sorted == [sorted[0]] + sorted[1..];
      [sorted[0]] + InsertByCount(counts, k, sorted[1..])
  }

  lemma LargestInFront<K(!new)>(counts: map<K, nat>, k: K, tail: seq<K>)
    requires k in counts && k !in tail && Descending(counts, tail) && Distinct(tail)
    requires forall x | x in tail :: counts[x] <= counts[k]
    ensures Descending(counts, [k] + tail) && Distinct([k] + tail)
  {
    assert forall j | 0 <= j < |tail| :: tail[j] in tail;
  }

  lemma RestDescends<K(!new)>(counts: map<K, nat>, sorted: seq<K>)
    requires sorted != [] && Descending(counts, sorted) && Distinct(sorted)
    ensures Descending(counts, sorted[1..]) && Distinct(sorted[1..]) && sorted[0] !in sorted[1..]
    ensures forall x | x in sorted[1..] :: counts[x] <= counts[sorted[0]]
  {
  }

  lemma {:induction false} InsertKeepsRank<K(!new)>(counts: map<K, nat>, k: K, sorted: seq<K>)
    requires k in counts && k !in sorted && Descending(counts, sorted) && Distinct(sorted)
    ensures Descending(counts, InsertByCount(counts, k, sorted)) && Distinct(InsertByCount(counts, k, sorted))
  {
    if sorted == [] {
      LargestInFront(counts, k, sorted);
    } else {
      RestDescends(counts, sorted);
      if counts[k] >= counts[sorted[0]] {
        assert sorted == [sorted[0]] + sorted[1..];
        LargestInFront(counts, k, sorted);
      } else {
        InsertKeepsRank(counts, k, sorted[1..]);
        LargestInFront(counts, sorted[0], InsertByCount(counts, k, sorted[1..]));
      }
    }
  }

  lemma PrefixIsTop<K(!new)>(counts: map<K, nat>, all: seq<K>, limit: nat)
    requires Distinct(all) && Descending(counts, all) && |all| == |counts| && forall k :: k in all <==> k in counts
    ensures Top(counts, limit, all[..Min(limit, |all|)])
  {
    var order := all[..Min(limit, |all|)];
    forall k, j | k in counts && k !in order && 0 <= j < |order|
      ensures counts[k] <= counts[order[j]]
    {
      var i :| 0 <= i < |all| && all[i] == k;
      assert i >= |order|;
      assert order[j] == all[j];
    }
  }

  /** `sort_by_key` on the reversed count, then `truncate`. */
  method Rank<K(==,!new)>(counts: map<K, nat>, limit: nat) returns (order: seq<K>)
    ensures Top(counts, limit, order)
  {
    var ks := Keys(counts);
    order := [];
    for i := |ks| downto 0
      invariant Distinct(order) && Descending(counts, order) && |order| == |ks| - i
      invariant forall k :: k in order <==> k in ks[i..]
    {
      assert ks[i..] == [ks[i]] + ks[i + 1..];
      assert ks[i] in ks && ks[i] !in ks[i + 1..];
      InsertKeepsRank(counts, ks[i], order);
      order := InsertByCount(counts, ks[i], order);
    }
    assert ks[0..] == ks;
    PrefixIsTop(counts, order, limit);
    order := order[..Min(limit, |order|)];
  }

  /** `max_by_key` on the count: some key nobody exceeds, or the empty string when there is none. */
  method MostFrequent(counts: map<string, nat>) returns (best: string)
    ensures counts == map[] ==> best == ""
    ensures counts != map[] ==> best in counts && forall k | k in counts :: counts[k] <= counts[best]
  {
    var ks := Keys(counts);
    if ks == [] {
      return "";
    }
    best := ks[0];
    for i := 1 to |ks|
      invariant best in ks && forall j | 0 <= j < i :: counts[ks[j]] <= counts[best]
    {
      if counts[ks[i]] >= counts[best] {
        best := ks[i];
      }
    }
  }
}
