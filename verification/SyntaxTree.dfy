/**
  Rendered syntax trees: what limiting their depth and their number of nodes does to them,
  independently of where they come from.
*/
module SyntaxTree {
  import opened Numbers

  datatype Range = Range(start: nat, end: nat)
  /** `root` marks the root of an injected region, which carries its language. */
  datatype Mark = Mark(kind: string, named: bool, root: bool, range: Range)
  datatype Rendered = Rendered(mark: Mark, children: seq<Rendered>)

  function Size(t: Rendered): (n: nat)
    ensures n >= 1
    decreases t, 1
  {
    1 + SizeAll(t.children)
  }

  function SizeAll(ts: seq<Rendered>): nat
    decreases ts, 0
  {
    if ts == [] then 0 else Size(ts[0]) + SizeAll(ts[1..])
  }

  /** A node together with its depth: the preorder of these determines the tree. */
  datatype Visit = Visit(depth: nat, mark: Mark)

  function Preorder(t: Rendered, depth: nat): seq<Visit>
    decreases t, 1
  {
    [Visit(depth, t.mark)] + PreorderAll(t.children, depth + 1)
  }

  function PreorderAll(ts: seq<Rendered>, depth: nat): seq<Visit>
    decreases ts, 0
  {
    if ts == [] then [] else Preorder(ts[0], depth) + PreorderAll(ts[1..], depth)
  }

  /** The tree down to `levels` levels below its root. */
  function Prune(t: Rendered, levels: nat): Rendered
    decreases t, 1
  {
    Rendered(t.mark, if levels == 0 then [] else PruneAll(t.children, levels - 1))
  }

  function PruneAll(ts: seq<Rendered>, levels: nat): (r: seq<Rendered>)
    ensures |r| == |ts|
    decreases ts, 0
  {
    if ts == [] then [] else [Prune(ts[0], levels)] + PruneAll(ts[1..], levels)
  }

  /** The tree cut after its first `n` nodes in preorder. */
  function Cut(t: Rendered, n: nat): Rendered
    requires n >= 1
    decreases t, 1
  {
    Rendered(t.mark, CutAll(t.children, n - 1))
  }

  function CutAll(ts: seq<Rendered>, n: nat): seq<Rendered>
    decreases ts, 0
  {
    if ts == [] || n == 0 then [] else [Cut(ts[0], n)] + CutAll(ts[1..], n - Min(n, Size(ts[0])))
  }

  lemma {:induction false} SizeAllAppend(a: seq<Rendered>, b: seq<Rendered>)
    ensures SizeAll(a + b) == SizeAll(a) + SizeAll(b)
  {
    if a == [] {
      assert a + b == b;
    } else {
      assert (a + b)[1..] == a[1..] + b;
      SizeAllAppend(a[1..], b);
    }
  }

  lemma {:induction false} PruneAllAppend(a: seq<Rendered>, b: seq<Rendered>, levels: nat)
    ensures PruneAll(a + b, levels) == PruneAll(a, levels) + PruneAll(b, levels)
  {
    if a == [] {
      assert a + b == b;
    } else {
      assert (a + b)[1..] == a[1..] + b;
      PruneAllAppend(a[1..], b, levels);
    }
  }

  lemma {:induction false} CutAllAppend(a: seq<Rendered>, b: seq<Rendered>, n: nat)
    ensures CutAll(a + b, n) == CutAll(a, n) + CutAll(b, n - Min(n, SizeAll(a)))
    decreases a
  {
    if a == [] {
      assert a + b == b;
    } else if n > 0 {
      assert (a + b)[1..] == a[1..] + b;
      CutAllAppend(a[1..], b, n - Min(n, Size(a[0])));
    }
  }

  lemma {:induction false} PreorderSize(t: Rendered, depth: nat)
    ensures |Preorder(t, depth)| == Size(t)
    decreases t, 1
  {
    PreorderAllSize(t.children, depth + 1);
  }

  lemma {:induction false} PreorderAllSize(ts: seq<Rendered>, depth: nat)
    ensures |PreorderAll(ts, depth)| == SizeAll(ts)
    decreases ts, 0
  {
    if ts != [] {
      PreorderSize(ts[0], depth);
      PreorderAllSize(ts[1..], depth);
    }
  }

  lemma {:induction false} PreorderAllAppend(a: seq<Rendered>, b: seq<Rendered>, depth: nat)
    ensures PreorderAll(a + b, depth) == PreorderAll(a, depth) + PreorderAll(b, depth)
  {
    if a == [] {
      assert a + b == b;
    } else {
      assert (a + b)[1..] == a[1..] + b;
      PreorderAllAppend(a[1..], b, depth);
    }
  }

  /** Cutting keeps exactly the first `n` visits. */
  lemma {:induction false} CutIsPrefix(t: Rendered, n: nat, depth: nat)
    requires n >= 1
    ensures |Preorder(t, depth)| == Size(t) && Size(Cut(t, n)) == Min(n, Size(t))
    ensures Preorder(Cut(t, n), depth) == Preorder(t, depth)[..Min(n, Size(t))]
    decreases t, 1
  {
    PreorderSize(t, depth);
    CutAllIsPrefix(t.children, n - 1, depth + 1);
    var rest := PreorderAll(t.children, depth + 1);
    assert Preorder(t, depth)[..Min(n, Size(t))] == [Visit(depth, t.mark)] + rest[..Min(n - 1, SizeAll(t.children))];
  }

  lemma {:induction false} CutAllIsPrefix(ts: seq<Rendered>, n: nat, depth: nat)
    ensures |PreorderAll(ts, depth)| == SizeAll(ts) && SizeAll(CutAll(ts, n)) == Min(n, SizeAll(ts))
    ensures PreorderAll(CutAll(ts, n), depth) == PreorderAll(ts, depth)[..Min(n, SizeAll(ts))]
    decreases ts, 0
  {
    PreorderAllSize(ts, depth);
    if ts != [] && n > 0 {
      var m := n - Min(n, Size(ts[0]));
      CutIsPrefix(ts[0], n, depth);
      CutAllIsPrefix(ts[1..], m, depth);
      var head, tail := Preorder(ts[0], depth), PreorderAll(ts[1..], depth);
      var cut := CutAll(ts, n);
      assert cut[0] == Cut(ts[0], n) && cut[1..] == CutAll(ts[1..], m);
      assert (head + tail)[..Min(n, SizeAll(ts))] == head[..Min(n, |head|)] + tail[..Min(m, |tail|)];
    }
  }

  /** A cut that leaves as many nodes as there were leaves everything. */
  lemma {:induction false} CutEverything(t: Rendered, n: nat)
    requires n >= Size(t)
    ensures Cut(t, n) == t
    decreases t, 1
  {
    CutAllEverything(t.children, n - 1);
  }

  lemma {:induction false} CutAllEverything(ts: seq<Rendered>, n: nat)
    requires n >= SizeAll(ts)
    ensures CutAll(ts, n) == ts
    decreases ts, 0
  {
    if ts != [] {
      CutEverything(ts[0], n);
      CutAllEverything(ts[1..], n - Size(ts[0]));
    }
  }

  /** Pruning loses nodes unless it changes nothing. */
  lemma {:induction false} PruneSize(t: Rendered, levels: nat)
    ensures Size(Prune(t, levels)) <= Size(t)
    ensures Size(Prune(t, levels)) == Size(t) ==> Prune(t, levels) == t
    decreases t, 1
  {
    if levels > 0 {
      PruneAllSize(t.children, levels - 1);
    } else {
      assert t.children != [] ==> SizeAll(t.children) >= 1;
    }
  }

  lemma {:induction false} PruneAllSize(ts: seq<Rendered>, levels: nat)
    ensures SizeAll(PruneAll(ts, levels)) <= SizeAll(ts)
    ensures SizeAll(PruneAll(ts, levels)) == SizeAll(ts) ==> PruneAll(ts, levels) == ts
    decreases ts, 0
  {
    if ts != [] {
      PruneSize(ts[0], levels);
      PruneAllSize(ts[1..], levels);
      var pruned := PruneAll(ts, levels);
      assert pruned[0] == Prune(ts[0], levels) && pruned[1..] == PruneAll(ts[1..], levels);
    }
  }

  // ---- the root of a region ---------------------------------------------------------------------------

  function AsRoot(t: Rendered): Rendered {
    t.(mark := t.mark.(root := true))
  }

  lemma AsRootCommutes(t: Rendered, levels: nat, n: nat)
    requires n >= 1
    ensures Size(AsRoot(t)) == Size(t) && Prune(AsRoot(t), levels) == AsRoot(Prune(t, levels))
    ensures Cut(AsRoot(t), n) == AsRoot(Cut(t, n))
  {
  }

  // ---- pruning is by depth --------------------------------------------------------------------------------

  /** The visits no deeper than a limit. */
  function Shallow(visits: seq<Visit>, limit: nat): seq<Visit> {
    if visits == [] then []
    else (if visits[0].depth <= limit then [visits[0]] else []) + Shallow(visits[1..], limit)
  }

  lemma {:induction false} ShallowAppend(a: seq<Visit>, b: seq<Visit>, limit: nat)
    ensures Shallow(a + b, limit) == Shallow(a, limit) + Shallow(b, limit)
  {
    if a == [] {
      assert a + b == b;
    } else {
      var all := a + b;
      assert all[0] == a[0] && all[1..] == a[1..] + b;
      ShallowAppend(a[1..], b, limit);
      var head := if a[0].depth <= limit then [a[0]] else [];
      assert Shallow(all, limit) == head + (Shallow(a[1..], limit) + Shallow(b, limit));
    }
  }

  /** Pruning to `levels` levels keeps exactly the visits that are at most that much deeper than the root. */
  lemma {:induction false} PruneIsByDepth(t: Rendered, levels: nat, depth: nat)
    ensures Preorder(Prune(t, levels), depth) == Shallow(Preorder(t, depth), depth + levels)
    decreases t, 1
  {
    var below := PreorderAll(t.children, depth + 1);
    assert Preorder(t, depth)[1..] == below;
    if levels == 0 {
      TooDeep(t.children, depth + 1, depth);
    } else {
      PruneAllIsByDepth(t.children, levels - 1, depth + 1);
    }
  }

  lemma {:induction false} PruneAllIsByDepth(ts: seq<Rendered>, levels: nat, depth: nat)
    ensures PreorderAll(PruneAll(ts, levels), depth) == Shallow(PreorderAll(ts, depth), depth + levels)
    decreases ts, 0
  {
    if ts != [] {
      PruneIsByDepth(ts[0], levels, depth);
      PruneAllIsByDepth(ts[1..], levels, depth);
      ShallowAppend(Preorder(ts[0], depth), PreorderAll(ts[1..], depth), depth + levels);
      var pruned := PruneAll(ts, levels);
      assert pruned[0] == Prune(ts[0], levels) && pruned[1..] == PruneAll(ts[1..], levels);
    }
  }

  /** Everything below a node is deeper than the node. */
  lemma {:induction false} TooDeep(ts: seq<Rendered>, depth: nat, limit: nat)
    requires limit < depth
    ensures Shallow(PreorderAll(ts, depth), limit) == []
    decreases ts
  {
    if ts != [] {
      TooDeep(ts[0].children, depth + 1, limit);
      TooDeep(ts[1..], depth, limit);
      assert Preorder(ts[0], depth)[1..] == PreorderAll(ts[0].children, depth + 1);
      ShallowAppend(Preorder(ts[0], depth), PreorderAll(ts[1..], depth), limit);
    }
  }
}
