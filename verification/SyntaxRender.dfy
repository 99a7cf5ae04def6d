/**
  Budgeted rendering of a syntax tree with nested language injections, and the count it is compared
  with (crates/daemon/src/syntax.rs).

  A document and an injected language region render by the same recursion: a node, the region it
  hosts, then its eligible children. They differ in which node kinds can host a region and in how
  node offsets translate to the document, both of which a `Region` carries.
*/
module SyntaxRender {
  import opened Numbers
  import opened Results
  import opened SyntaxTree
  import SourceOrigin

  datatype Node = Node(kind: string, named: bool, range: Range, children: seq<Node>)

  /**
    `top` marks the document itself. `content` is where the region lies in the document, `prefix`
    the length of the synthetic text parsed in front of it, `readable` whether the enclosing source
    has that slice.
  */
  datatype Region = Region(
    top: bool, host: Range, content: Range, prefix: nat, readable: bool, root: Node, nested: seq<Region>)

  predicate Hosts(region: Region, kind: string) {
    kind == "sql_expression" || (region.top && kind == "dollar_quoted_string")
  }

  /** Where the text of a region starts, as far as bytes are concerned. */
  function OriginOf(region: Region): SourceOrigin.Origin {
    SourceOrigin.Origin(region.content.start, 0, 0, region.prefix)
  }

  /** A node's range in document bytes. */
  function DocumentRange(region: Region, node: Node): Range {
    Range(SourceOrigin.TranslatedByte(node.range.start, OriginOf(region)),
          SourceOrigin.TranslatedByte(node.range.end, OriginOf(region)))
  }

  /** `injection_for_host` and `nested_for_host`: the first region at `start` that ends within. */
  function FindHosted(nested: seq<Region>, range: Range, from: nat): (r: Option<nat>)
    requires from <= |nested|
    ensures r.Some? ==> from <= r.value < |nested|
    ensures r.Some? ==> nested[r.value].host.start == range.start && nested[r.value].host.end <= range.end
    ensures forall k | from <= k < (if r.Some? then r.value else |nested|) ::
              nested[k].host.start != range.start || nested[k].host.end > range.end
    decreases |nested| - from
  {
    if from == |nested| then None
    else if nested[from].host.start == range.start && nested[from].host.end <= range.end then Some(from)
    else FindHosted(nested, range, from + 1)
  }

  function Hosted(region: Region, node: Node): (r: Option<nat>)
    ensures r.Some? ==> r.value < |region.nested|
  {
    if Hosts(region, node.kind) then FindHosted(region.nested, DocumentRange(region, node), 0) else None
  }

  predicate Eligible(node: Node, namedOnly: bool) {
    !namedOnly || node.named
  }

  // ---- the merged tree, without any limit ---------------------------------------------------------

  function Full(region: Region, node: Node, namedOnly: bool): Rendered
    decreases region, node, 1
  {
    Rendered(Mark(node.kind, node.named, false, DocumentRange(region, node)),
             FullHosted(region, node, namedOnly) + FullAll(region, node.children, namedOnly))
  }

  function FullHosted(region: Region, node: Node, namedOnly: bool): seq<Rendered>
    decreases region, node, 0
  {
    var at := Hosted(region, node);
    if at.Some? && region.nested[at.value].readable
    then [AsRoot(Full(region.nested[at.value], region.nested[at.value].root, namedOnly))] else []
  }

  function FullAll(region: Region, nodes: seq<Node>, namedOnly: bool): seq<Rendered>
    decreases region, nodes, 0
  {
    if nodes == [] then []
    else (if Eligible(nodes[0], namedOnly) then [Full(region, nodes[0], namedOnly)] else [])
         + FullAll(region, nodes[1..], namedOnly)
  }

  lemma {:induction false} FullAllAppend(region: Region, a: seq<Node>, b: seq<Node>, namedOnly: bool)
    ensures FullAll(region, a + b, namedOnly) == FullAll(region, a, namedOnly) + FullAll(region, b, namedOnly)
    decreases a
  {
    if a == [] {
      assert a + b == b;
    } else {
      assert (a + b)[1..] == a[1..] + b;
      FullAllAppend(region, a[1..], b, namedOnly);
    }
  }

  /** What is wanted below a node, up to its first `i` children. */
  ghost function Wanted(region: Region, node: Node, i: nat, levels: nat, namedOnly: bool): seq<Rendered>
    requires i <= |node.children|
  {
    PruneAll(FullHosted(region, node, namedOnly) + FullAll(region, node.children[..i], namedOnly), levels)
  }

  lemma PruneSplits(hosted: seq<Rendered>, a: seq<Rendered>, b: seq<Rendered>, levels: nat)
    ensures PruneAll(hosted + (a + b), levels) == PruneAll(hosted + a, levels) + PruneAll(b, levels)
  {
    assert hosted + (a + b) == (hosted + a) + b;
    PruneAllAppend(hosted + a, b, levels);
  }

  lemma FullAllSnoc(region: Region, nodes: seq<Node>, i: nat, namedOnly: bool)
    requires i < |nodes|
    ensures FullAll(region, nodes[..i + 1], namedOnly) == FullAll(region, nodes[..i], namedOnly)
            + if Eligible(nodes[i], namedOnly) then [Full(region, nodes[i], namedOnly)] else []
  {
    assert nodes[..i + 1] == nodes[..i] + [nodes[i]] && [nodes[i]][1..] == [];
    FullAllAppend(region, nodes[..i], [nodes[i]], namedOnly);
  }

  lemma WantedSplits(region: Region, node: Node, i: nat, levels: nat, namedOnly: bool)
    requires i < |node.children|
    ensures Wanted(region, node, i + 1, levels, namedOnly) ==
            if Eligible(node.children[i], namedOnly)
            then Wanted(region, node, i, levels, namedOnly) + [Prune(Full(region, node.children[i], namedOnly), levels)]
            else Wanted(region, node, i, levels, namedOnly)
  {
    var cs := node.children;
    var one := if Eligible(cs[i], namedOnly) then [Full(region, cs[i], namedOnly)] else [];
    FullAllSnoc(region, cs, i, namedOnly);
    PruneSplits(FullHosted(region, node, namedOnly), FullAll(region, cs[..i], namedOnly), one, levels);
    assert one != [] ==> one[1..] == [];
  }

  lemma {:induction false} WantedPrefix(region: Region, node: Node, i: nat, levels: nat, namedOnly: bool) returns (more: seq<Rendered>)
    requires i <= |node.children|
    ensures Wanted(region, node, |node.children|, levels, namedOnly) == Wanted(region, node, i, levels, namedOnly) + more
    decreases |node.children| - i
  {
    if i == |node.children| {
      more := [];
    } else {
      var one := if Eligible(node.children[i], namedOnly)
                 then [Prune(Full(region, node.children[i], namedOnly), levels)] else [];
      WantedSplits(region, node, i, levels, namedOnly);
      var tail := WantedPrefix(region, node, i + 1, levels, namedOnly);
      more := one + tail;
      Associate(Wanted(region, node, i, levels, namedOnly), one, tail);
    }
  }

  lemma Associate(a: seq<Rendered>, b: seq<Rendered>, c: seq<Rendered>)
    ensures (a + b) + c == a + (b + c)
    ensures b == [] ==> a + b == a
  {
  }

  // ---- the budgeted recursion -----------------------------------------------------------------------

  /** The shared `emitted` counter. */
  class Budget {
    const limit: nat
    var emitted: nat

    constructor (limit: nat)
      ensures this.limit == limit && emitted == 0
    {
      this.limit, emitted := limit, 0;
    }

    function Left(): nat
      reads this
    {
      if emitted >= limit then 0 else limit - emitted
    }
  }

  /** `children` so far: what the first `n` nodes of `wanted` leave, all of it emitted. */
  ghost predicate Progress(children: seq<Rendered>, wanted: seq<Rendered>, n: nat, left: nat) {
    children == CutAll(wanted, n) && left == n - Min(n, SizeAll(wanted))
  }

  lemma ProgressStep(children: seq<Rendered>, wanted: seq<Rendered>, n: nat, left: nat,
                     child: Option<Rendered>, full: Rendered, left': nat)
    requires Progress(children, wanted, n, left)
    requires left == 0 ==> child == None && left' == 0
    requires left > 0 ==> child == Some(Cut(full, left)) && left' == left - Min(left, Size(full))
    ensures child.Some? ==> Progress(children + [child.value], wanted + [full], n, left')
    ensures child.None? ==> Progress(children, wanted + [full], n, left')
  {
    CutAllAppend(wanted, [full], n);
    SizeAllAppend(wanted, [full]);
    assert [full][1..] == [];
  }

  /** Once the budget is spent, further siblings change nothing. */
  lemma ProgressSpent(children: seq<Rendered>, wanted: seq<Rendered>, n: nat, more: seq<Rendered>)
    requires Progress(children, wanted, n, 0)
    ensures Progress(children, wanted + more, n, 0)
  {
    CutAllAppend(wanted, more, n);
    SizeAllAppend(wanted, more);
  }

  /**
    `build_document_node` and `build_injected_tree_node`: the merged tree, pruned to `levels` levels
    and cut after as many nodes as the budget has left.
  */
  method Build(budget: Budget, region: Region, node: Node, levels: nat, namedOnly: bool)
    returns (r: Option<Rendered>)
    modifies budget
    ensures var wanted := Prune(Full(region, node, namedOnly), levels);
            var n := old(budget.Left());
            && (n == 0 ==> r == None && budget.emitted == old(budget.emitted))
            && (n > 0 ==> r == Some(Cut(wanted, n))
                          && budget.emitted == old(budget.emitted) + Min(n, Size(wanted)))
    decreases region, node, 2
  {
    if budget.emitted >= budget.limit {
      return None;
    }
    budget.emitted := budget.emitted + 1;
    var children := [];
    if levels > 0 {
      children := BuildChildren(budget, region, node, levels - 1, namedOnly);
    }
    return Some(Rendered(Mark(node.kind, node.named, false, DocumentRange(region, node)), children));
  }

  /** What is rendered below a node so far: its hosted region and its first `i` children, within `n` nodes. */
  ghost predicate RenderedUpTo(children: seq<Rendered>, region: Region, node: Node, i: nat, levels: nat, namedOnly: bool,
                               n: nat, left: nat)
    requires i <= |node.children|
  {
    Progress(children, Wanted(region, node, i, levels, namedOnly), n, left)
  }

  lemma ChildSkipped(children: seq<Rendered>, region: Region, node: Node, i: nat, levels: nat, namedOnly: bool,
                     n: nat, left: nat)
    requires i < |node.children| && RenderedUpTo(children, region, node, i, levels, namedOnly, n, left)
    requires !Eligible(node.children[i], namedOnly)
    ensures RenderedUpTo(children, region, node, i + 1, levels, namedOnly, n, left)
  {
    WantedSplits(region, node, i, levels, namedOnly);
  }

  lemma ChildRendered(children: seq<Rendered>, region: Region, node: Node, i: nat, levels: nat, namedOnly: bool,
                      n: nat, left: nat, child: Rendered, full: Rendered, left': nat)
    requires i < |node.children| && RenderedUpTo(children, region, node, i, levels, namedOnly, n, left)
    requires Eligible(node.children[i], namedOnly) && full == Prune(Full(region, node.children[i], namedOnly), levels)
    requires left > 0 && child == Cut(full, left) && left' == left - Min(left, Size(full))
    ensures RenderedUpTo(children + [child], region, node, i + 1, levels, namedOnly, n, left')
  {
    WantedSplits(region, node, i, levels, namedOnly);
    ProgressStep(children, Wanted(region, node, i, levels, namedOnly), n, left, Some(child), full, left');
  }

  lemma BudgetSpent(children: seq<Rendered>, region: Region, node: Node, i: nat, levels: nat, namedOnly: bool, n: nat)
    requires i <= |node.children| && RenderedUpTo(children, region, node, i, levels, namedOnly, n, 0)
    ensures RenderedUpTo(children, region, node, |node.children|, levels, namedOnly, n, 0)
  {
    var more := WantedPrefix(region, node, i, levels, namedOnly);
    ProgressSpent(children, Wanted(region, node, i, levels, namedOnly), n, more);
  }

  lemma AllRendered(children: seq<Rendered>, region: Region, node: Node, levels: nat, namedOnly: bool, n: nat, left: nat)
    requires RenderedUpTo(children, region, node, |node.children|, levels, namedOnly, n, left)
    ensures Progress(children, PruneAll(Full(region, node, namedOnly).children, levels), n, left)
  {
    assert node.children[..|node.children|] == node.children;
  }

  /** The hosted region first, then the eligible children until one does not fit any more. */
  method BuildChildren(budget: Budget, region: Region, node: Node, levels: nat, namedOnly: bool)
    returns (children: seq<Rendered>)
    modifies budget
    ensures var wanted := PruneAll(Full(region, node, namedOnly).children, levels);
            var n := old(budget.Left());
            && children == CutAll(wanted, n)
            && budget.emitted == old(budget.emitted) + Min(n, SizeAll(wanted))
    decreases region, node, 1
  {
    ghost var n := budget.Left();
    children := BuildHosted(budget, region, node, levels, namedOnly);
    for i := 0 to |node.children|
      invariant RenderedUpTo(children, region, node, i, levels, namedOnly, n, budget.Left())
      invariant budget.emitted == old(budget.emitted) + (n - budget.Left())
    {
      if Eligible(node.children[i], namedOnly) {
        ghost var left := budget.Left();
        var child := Build(budget, region, node.children[i], levels, namedOnly);
        if child.None? {
          BudgetSpent(children, region, node, i, levels, namedOnly, n);
          break;
        }
        ChildRendered(children, region, node, i, levels, namedOnly, n, left, child.value,
                      Prune(Full(region, node.children[i], namedOnly), levels), budget.Left());
        children := children + [child.value];
      } else {
        ChildSkipped(children, region, node, i, levels, namedOnly, n, budget.Left());
      }
    }
    AllRendered(children, region, node, levels, namedOnly, n, budget.Left());
  }

  /** `build_injection_node`, and the nested case of `build_injected_tree_node`. */
  method BuildHosted(budget: Budget, region: Region, node: Node, levels: nat, namedOnly: bool)
    returns (children: seq<Rendered>)
    modifies budget
    ensures Progress(children, Wanted(region, node, 0, levels, namedOnly), old(budget.Left()), budget.Left())
    ensures budget.emitted == old(budget.emitted) + (old(budget.Left()) - budget.Left())
    decreases region, node, 0
  {
    children := [];
    ghost var hosted := FullHosted(region, node, namedOnly);
    assert node.children[..0] == [] && hosted + [] == hosted;
    var at := Hosted(region, node);
    if at.Some? && region.nested[at.value].readable {
      var inner := region.nested[at.value];
      assert PruneAll(hosted, levels) == [] + [Prune(hosted[0], levels)];
      ghost var left := budget.Left();
      var child := Build(budget, inner, inner.root, levels, namedOnly);
      AsRootCommutes(Full(inner, inner.root, namedOnly), levels, 1);
      AsRootCommutes(Prune(Full(inner, inner.root, namedOnly), levels), levels, if left > 0 then left else 1);
      if child.Some? {
        children := [AsRoot(child.value)];
      }
      ProgressStep([], [], left, left, if child.Some? then Some(AsRoot(child.value)) else None,
                   Prune(hosted[0], levels), budget.Left());
    }
  }

  // ---- counting --------------------------------------------------------------------------------------

  function VisibleSize(node: Node, namedOnly: bool): (n: nat)
    ensures n >= 1
    decreases node, 1
  {
    1 + VisibleSizes(node.children, namedOnly)
  }

  function VisibleSizes(nodes: seq<Node>, namedOnly: bool): nat
    decreases nodes, 0
  {
    if nodes == [] then 0
    else (if Eligible(nodes[0], namedOnly) then VisibleSize(nodes[0], namedOnly) else 0)
         + VisibleSizes(nodes[1..], namedOnly)
  }

  function EligibleOnly(nodes: seq<Node>, namedOnly: bool): (r: seq<Node>)
    ensures forall n | n in r :: n in nodes && Eligible(n, namedOnly)
  {
    if nodes == [] then []
    else (if Eligible(nodes[0], namedOnly) then [nodes[0]] else []) + EligibleOnly(nodes[1..], namedOnly)
  }

  /** `injection_total_nodes`: every nested region counts, hosted or not. */
  function Total(region: Region, namedOnly: bool): nat
    decreases region, 1
  {
    VisibleSize(region.root, namedOnly) + TotalAll(region.nested, namedOnly)
  }

  function TotalAll(regions: seq<Region>, namedOnly: bool): nat
    decreases regions, 0
  {
    if regions == [] then 0 else Total(regions[0], namedOnly) + TotalAll(regions[1..], namedOnly)
  }

  /** One node of a document counts itself and the whole region it hosts. */
  function OwnCount(region: Region, node: Node, namedOnly: bool): nat {
    1 + if Hosted(region, node).Some? then Total(region.nested[Hosted(region, node).value], namedOnly) else 0
  }

  function DocumentSize(region: Region, node: Node, namedOnly: bool): (n: nat)
    ensures n >= 1
    decreases node, 1
  {
    OwnCount(region, node, namedOnly) + DocumentSizes(region, node.children, namedOnly)
  }

  function DocumentSizes(region: Region, nodes: seq<Node>, namedOnly: bool): nat
    decreases nodes, 0
  {
    if nodes == [] then 0
    else (if Eligible(nodes[0], namedOnly) then DocumentSize(region, nodes[0], namedOnly) else 0)
         + DocumentSizes(region, nodes[1..], namedOnly)
  }

  /** What a work list of nodes still has to count. */
  ghost function Pending(region: Region, stack: seq<Node>, namedOnly: bool): nat {
    if stack == [] then 0
    else DocumentSize(region, stack[0], namedOnly) + Pending(region, stack[1..], namedOnly)
  }

  lemma {:induction false} PendingAppend(region: Region, a: seq<Node>, b: seq<Node>, namedOnly: bool)
    ensures Pending(region, a + b, namedOnly) == Pending(region, a, namedOnly) + Pending(region, b, namedOnly)
    decreases a
  {
    if a == [] {
      assert a + b == b;
    } else {
      assert (a + b)[1..] == a[1..] + b;
      PendingAppend(region, a[1..], b, namedOnly);
    }
  }

  lemma {:induction false} PendingEligible(region: Region, nodes: seq<Node>, namedOnly: bool)
    ensures Pending(region, EligibleOnly(nodes, namedOnly), namedOnly) == DocumentSizes(region, nodes, namedOnly)
    decreases nodes
  {
    if nodes != [] {
      PendingEligible(region, nodes[1..], namedOnly);
      if Eligible(nodes[0], namedOnly) {
        PendingAppend(region, [nodes[0]], EligibleOnly(nodes[1..], namedOnly), namedOnly);
        assert [nodes[0]][1..] == [];
      } else {
        assert EligibleOnly(nodes, namedOnly) == EligibleOnly(nodes[1..], namedOnly);
      }
    }
  }

  /** `count_document_nodes`, over an explicit stack. */
  method CountDocumentNodes(region: Region, node: Node, namedOnly: bool) returns (count: nat)
    ensures count == DocumentSize(region, node, namedOnly)
  {
    count := 0;
    var stack := [node];
    assert stack[1..] == [];
    while stack != []
      invariant count + Pending(region, stack, namedOnly) == DocumentSize(region, node, namedOnly)
      decreases Pending(region, stack, namedOnly)
    {
      var top := stack[|stack| - 1];
      assert stack == stack[..|stack| - 1] + [top] && [top][1..] == [];
      PendingAppend(region, stack[..|stack| - 1], [top], namedOnly);
      stack := stack[..|stack| - 1];
      count := count + OwnCount(region, top, namedOnly);
      PendingAppend(region, stack, EligibleOnly(top.children, namedOnly), namedOnly);
      PendingEligible(region, top.children, namedOnly);
      stack := stack + EligibleOnly(top.children, namedOnly);
    }
  }

  // ---- when the count is the size of the merged tree -------------------------------------------------

  /** The nested regions the nodes below `node` host, in preorder. */
  function Hostings(region: Region, node: Node, namedOnly: bool): (ks: seq<nat>)
    decreases node, 1
  {
    (if Hosted(region, node).Some? then [Hosted(region, node).value] else [])
    + HostingsAll(region, node.children, namedOnly)
  }

  function HostingsAll(region: Region, nodes: seq<Node>, namedOnly: bool): (ks: seq<nat>)
    decreases nodes, 0
  {
    if nodes == [] then []
    else (if Eligible(nodes[0], namedOnly) then Hostings(region, nodes[0], namedOnly) else [])
         + HostingsAll(region, nodes[1..], namedOnly)
  }

  function Indices(n: nat): (ks: seq<nat>)
  {
    if n == 0 then [] else Indices(n - 1) + [n - 1]
  }

  /** Every nested region can be read and has exactly one visible host, at every level. */
  ghost predicate WellHosted(region: Region, namedOnly: bool)
    decreases region, 1
  {
    && multiset(Hostings(region, region.root, namedOnly)) == multiset(Indices(|region.nested|))
    && AllWellHosted(region, namedOnly)
  }

  ghost predicate AllWellHosted(region: Region, namedOnly: bool)
    decreases region, 0
  {
    forall k | 0 <= k < |region.nested| ::
      region.nested[k].readable && WellHosted(region.nested[k], namedOnly)
  }

  function Weight(w: seq<nat>, k: nat): nat {
    if k < |w| then w[k] else 0
  }

  function Sum(w: seq<nat>, ks: seq<nat>): nat {
    if ks == [] then 0 else Weight(w, ks[0]) + Sum(w, ks[1..])
  }

  lemma {:induction false} SumAppend(w: seq<nat>, a: seq<nat>, b: seq<nat>)
    ensures Sum(w, a + b) == Sum(w, a) + Sum(w, b)
  {
    if a == [] {
      assert a + b == b;
    } else {
      assert (a + b)[1..] == a[1..] + b;
      SumAppend(w, a[1..], b);
    }
  }

  lemma WithoutOne(b: seq<nat>, i: nat)
    requires i < |b|
    ensures multiset(b[..i] + b[i + 1..]) == multiset(b) - multiset{b[i]}
  {
    assert b == b[..i] + [b[i]] + b[i + 1..];
  }

  lemma WithoutFirst(a: seq<nat>)
    requires a != []
    ensures multiset(a[1..]) == multiset(a) - multiset{a[0]}
  {
    assert a == [a[0]] + a[1..];
  }

  lemma SumWithoutOne(w: seq<nat>, b: seq<nat>, i: nat)
    requires i < |b|
    ensures Sum(w, b) == Sum(w, b[..i] + b[i + 1..]) + Weight(w, b[i])
  {
    var tail := [b[i]] + b[i + 1..];
    assert b == b[..i] + tail && tail[1..] == b[i + 1..];
    SumAppend(w, b[..i], tail);
    SumAppend(w, b[..i], b[i + 1..]);
  }

  /** Finds the first element of `a` in its permutation `b`, and what is left of both. */
  lemma SplitPermutation(a: seq<nat>, b: seq<nat>) returns (i: nat)
    requires a != [] && multiset(a) == multiset(b)
    ensures i < |b| && b[i] == a[0]
    ensures multiset(a[1..]) == multiset(b[..i] + b[i + 1..])
  {
    assert a[0] in multiset(b);
    i :| i < |b| && b[i] == a[0];
    WithoutFirst(a);
    WithoutOne(b, i);
  }

  lemma {:induction false} SumOfPermutation(w: seq<nat>, a: seq<nat>, b: seq<nat>)
    requires multiset(a) == multiset(b)
    ensures Sum(w, a) == Sum(w, b)
    decreases |a|
  {
    if a == [] {
      assert |multiset(b)| == 0;
    } else {
      var i := SplitPermutation(a, b);
      SumOfPermutation(w, a[1..], b[..i] + b[i + 1..]);
      SumWithoutOne(w, b, i);
    }
  }

  ghost function NestedSizes(region: Region, namedOnly: bool): (w: seq<nat>)
    ensures |w| == |region.nested|
  {
    seq(|region.nested|, k requires 0 <= k < |region.nested| =>
      Size(Full(region.nested[k], region.nested[k].root, namedOnly)))
  }

  /** The merged tree has the visible nodes, and the trees of the regions they host. */
  lemma {:induction false} FullSize(region: Region, node: Node, namedOnly: bool)
    requires forall k | 0 <= k < |region.nested| :: region.nested[k].readable
    ensures Size(Full(region, node, namedOnly)) ==
            VisibleSize(node, namedOnly) + Sum(NestedSizes(region, namedOnly), Hostings(region, node, namedOnly))
    decreases node, 1
  {
    var w := NestedSizes(region, namedOnly);
    var own := if Hosted(region, node).Some? then [Hosted(region, node).value] else [];
    FullSizes(region, node.children, namedOnly);
    SumAppend(w, own, HostingsAll(region, node.children, namedOnly));
    SizeAllAppend(FullHosted(region, node, namedOnly), FullAll(region, node.children, namedOnly));
    assert own != [] ==> own[1..] == [] && FullHosted(region, node, namedOnly)[1..] == [];
  }

  lemma {:induction false} FullSizes(region: Region, nodes: seq<Node>, namedOnly: bool)
    requires forall k | 0 <= k < |region.nested| :: region.nested[k].readable
    ensures SizeAll(FullAll(region, nodes, namedOnly)) ==
            VisibleSizes(nodes, namedOnly) + Sum(NestedSizes(region, namedOnly), HostingsAll(region, nodes, namedOnly))
    decreases nodes, 0
  {
    if nodes != [] {
      FullSizes(region, nodes[1..], namedOnly);
      if Eligible(nodes[0], namedOnly) {
        FullSize(region, nodes[0], namedOnly);
        SumAppend(NestedSizes(region, namedOnly), Hostings(region, nodes[0], namedOnly),
                  HostingsAll(region, nodes[1..], namedOnly));
      } else {
        assert FullAll(region, nodes, namedOnly) == FullAll(region, nodes[1..], namedOnly);
        assert HostingsAll(region, nodes, namedOnly) == HostingsAll(region, nodes[1..], namedOnly);
      }
    }
  }

  lemma {:induction false} TotalsSum(regions: seq<Region>, w: seq<nat>, n: nat, namedOnly: bool)
    requires n <= |regions| == |w|
    requires forall k | 0 <= k < |w| :: w[k] == Total(regions[k], namedOnly)
    ensures TotalAll(regions[..n], namedOnly) == Sum(w, Indices(n))
  {
    if n > 0 {
      TotalsSum(regions, w, n - 1, namedOnly);
      TotalAllSnoc(regions, n - 1, namedOnly);
      SumOfIndices(w, n);
    }
  }

  lemma SumOfIndices(w: seq<nat>, n: nat)
    requires 0 < n <= |w|
    ensures Sum(w, Indices(n)) == Sum(w, Indices(n - 1)) + w[n - 1]
  {
    SumAppend(w, Indices(n - 1), [n - 1]);
    assert [n - 1][1..] == [];
  }

  lemma {:induction false} TotalAllSnoc(regions: seq<Region>, n: nat, namedOnly: bool)
    requires n < |regions|
    ensures TotalAll(regions[..n + 1], namedOnly) == TotalAll(regions[..n], namedOnly) + Total(regions[n], namedOnly)
    decreases n
  {
    if n == 0 {
      assert regions[..1][1..] == [];
    } else {
      assert regions[..n + 1][1..] == regions[1..][..n] && regions[..n][1..] == regions[1..][..n - 1];
      TotalAllSnoc(regions[1..], n - 1, namedOnly);
    }
  }

  lemma {:induction false} TotalIsFullSize(region: Region, namedOnly: bool)
    requires WellHosted(region, namedOnly)
    ensures Total(region, namedOnly) == Size(Full(region, region.root, namedOnly))
    decreases region
  {
    var w := NestedSizes(region, namedOnly);
    forall k | 0 <= k < |w|
      ensures w[k] == Total(region.nested[k], namedOnly)
    {
      TotalIsFullSize(region.nested[k], namedOnly);
    }
    TotalsSum(region.nested, w, |w|, namedOnly);
    assert region.nested[..|w|] == region.nested;
    FullSize(region, region.root, namedOnly);
    SumOfPermutation(w, Hostings(region, region.root, namedOnly), Indices(|w|));
  }

  lemma {:induction false} DocumentSizeIsFullSize(region: Region, node: Node, namedOnly: bool)
    requires AllWellHosted(region, namedOnly)
    ensures DocumentSize(region, node, namedOnly) == Size(Full(region, node, namedOnly))
    decreases node, 1
  {
    DocumentSizesAreFullSizes(region, node.children, namedOnly);
    SizeAllAppend(FullHosted(region, node, namedOnly), FullAll(region, node.children, namedOnly));
    var at := Hosted(region, node);
    if at.Some? {
      TotalIsFullSize(region.nested[at.value], namedOnly);
      assert FullHosted(region, node, namedOnly)[1..] == [];
    }
  }

  lemma {:induction false} DocumentSizesAreFullSizes(region: Region, nodes: seq<Node>, namedOnly: bool)
    requires AllWellHosted(region, namedOnly)
    ensures DocumentSizes(region, nodes, namedOnly) == SizeAll(FullAll(region, nodes, namedOnly))
    decreases nodes, 0
  {
    if nodes != [] {
      DocumentSizesAreFullSizes(region, nodes[1..], namedOnly);
      if Eligible(nodes[0], namedOnly) {
        DocumentSizeIsFullSize(region, nodes[0], namedOnly);
      } else {
        assert FullAll(region, nodes, namedOnly) == FullAll(region, nodes[1..], namedOnly);
      }
    }
  }

  // ---- what the merged tree contains ------------------------------------------------------------------------------

  /** How many of the first `i` nodes are shown. */
  function ShownBefore(nodes: seq<Node>, i: nat, namedOnly: bool): nat
    requires i <= |nodes|
  {
    if i == 0 then 0
    else ShownBefore(nodes, i - 1, namedOnly) + if namedOnly && !nodes[i - 1].named then 0 else 1
  }

  /** The named children, or all of them, are rendered, in order, and nothing else. */
  lemma {:induction false} ChildrenAreRendered(region: Region, nodes: seq<Node>, n: nat, namedOnly: bool)
    requires n <= |nodes|
    ensures |FullAll(region, nodes[..n], namedOnly)| == ShownBefore(nodes, n, namedOnly)
    ensures forall i | 0 <= i < n && (namedOnly ==> nodes[i].named) ::
              && ShownBefore(nodes, i, namedOnly) < ShownBefore(nodes, n, namedOnly)
              && FullAll(region, nodes[..n], namedOnly)[ShownBefore(nodes, i, namedOnly)] == Full(region, nodes[i], namedOnly)
    decreases n
  {
    if n > 0 {
      ChildrenAreRendered(region, nodes, n - 1, namedOnly);
      FullAllSnoc(region, nodes, n - 1, namedOnly);
    }
  }

  /** A node shows itself, then the region it hosts, then its children as far as they are shown. */
  lemma {:induction false} NodeIsRendered(region: Region, node: Node, namedOnly: bool)
    ensures var t := Full(region, node, namedOnly);
            && t.mark.kind == node.kind && t.mark.named == node.named && !t.mark.root
            && t.mark.range == Range(SourceOrigin.TranslatedByte(node.range.start, OriginOf(region)),
                                     SourceOrigin.TranslatedByte(node.range.end, OriginOf(region)))
            && t.children == FullHosted(region, node, namedOnly) + FullAll(region, node.children, namedOnly)
            && |FullAll(region, node.children, namedOnly)| == ShownBefore(node.children, |node.children|, namedOnly)
            && forall i | 0 <= i < |node.children| && (namedOnly ==> node.children[i].named) ::
                 && ShownBefore(node.children, i, namedOnly) < |FullAll(region, node.children, namedOnly)|
                 && FullAll(region, node.children, namedOnly)[ShownBefore(node.children, i, namedOnly)]
                    == Full(region, node.children[i], namedOnly)
  {
    assert node.children[..|node.children|] == node.children;
    ChildrenAreRendered(region, node.children, |node.children|, namedOnly);
  }

  /**
    A region is rendered below a node exactly when the node can host one and it is the first that
    starts with the node and ends within it, if its text can be read: SQL regions anywhere, routine
    bodies only in the document itself.
  */
  lemma {:induction false} HostedRegionIsRendered(region: Region, node: Node, namedOnly: bool, k: nat)
    requires k < |region.nested|
    requires region.nested[k].host.start == DocumentRange(region, node).start
    requires region.nested[k].host.end <= DocumentRange(region, node).end
    requires forall j | 0 <= j < k ::
               || region.nested[j].host.start != DocumentRange(region, node).start
               || region.nested[j].host.end > DocumentRange(region, node).end
    ensures FullHosted(region, node, namedOnly) ==
            if region.nested[k].readable
               && (node.kind == "sql_expression" || (region.top && node.kind == "dollar_quoted_string"))
            then [AsRoot(Full(region.nested[k], region.nested[k].root, namedOnly))] else []
  {
  }

  lemma {:induction false} NoRegionNoChild(region: Region, node: Node, namedOnly: bool)
    requires forall k | 0 <= k < |region.nested| ::
               || region.nested[k].host.start != DocumentRange(region, node).start
               || region.nested[k].host.end > DocumentRange(region, node).end
    ensures FullHosted(region, node, namedOnly) == []
  {
  }

  predicate NamedOrRoot(v: Visit) {
    v.mark.named || v.mark.root
  }

  predicate AllNamedOrRoots(visits: seq<Visit>) {
    forall v | v in visits :: NamedOrRoot(v)
  }

  /** With `named_only`, everything below the rendered node is a named node or the root of a region. */
  lemma {:induction false} OnlyNamedBelow(region: Region, node: Node, depth: nat)
    ensures AllNamedOrRoots(PreorderAll(Full(region, node, true).children, depth))
    decreases region, node, 1
  {
    OnlyNamedHosted(region, node, depth);
    OnlyNamed(region, node.children, depth);
    PreorderAllAppend(FullHosted(region, node, true), FullAll(region, node.children, true), depth);
  }

  lemma {:induction false} OnlyNamedHosted(region: Region, node: Node, depth: nat)
    ensures AllNamedOrRoots(PreorderAll(FullHosted(region, node, true), depth))
    decreases region, node, 0
  {
    var at := Hosted(region, node);
    if at.Some? && region.nested[at.value].readable {
      var inner := region.nested[at.value];
      OnlyNamedBelow(inner, inner.root, depth + 1);
      assert FullHosted(region, node, true)[1..] == [];
    }
  }

  lemma {:induction false} OnlyNamed(region: Region, nodes: seq<Node>, depth: nat)
    ensures AllNamedOrRoots(PreorderAll(FullAll(region, nodes, true), depth))
    decreases region, nodes, 0
  {
    if nodes != [] {
      OnlyNamed(region, nodes[1..], depth);
      if nodes[0].named {
        OnlyNamedBelow(region, nodes[0], depth + 1);
        var first := [Full(region, nodes[0], true)];
        assert first[1..] == [];
        PreorderAllAppend(first, FullAll(region, nodes[1..], true), depth);
      } else {
        assert FullAll(region, nodes, true) == FullAll(region, nodes[1..], true);
      }
    }
  }

  /** The preorder of the parsed tree itself. */
  function NodeVisits(node: Node, depth: nat): seq<Visit>
    decreases node, 1
  {
    [Visit(depth, Mark(node.kind, node.named, false, node.range))] + NodesVisits(node.children, depth + 1)
  }

  function NodesVisits(nodes: seq<Node>, depth: nat): seq<Visit>
    decreases nodes, 0
  {
    if nodes == [] then [] else NodeVisits(nodes[0], depth) + NodesVisits(nodes[1..], depth)
  }

  /** A document without injected regions is rendered as the tree it was parsed into. */
  lemma {:induction false} PlainDocument(region: Region, node: Node, depth: nat)
    requires region.nested == [] && region.content.start == 0 && region.prefix == 0
    ensures Preorder(Full(region, node, false), depth) == NodeVisits(node, depth)
    decreases node, 1
  {
    PlainDocuments(region, node.children, depth + 1);
    assert Full(region, node, false).children == FullAll(region, node.children, false);
    assert DocumentRange(region, node) == node.range;
  }

  lemma {:induction false} PlainDocuments(region: Region, nodes: seq<Node>, depth: nat)
    requires region.nested == [] && region.content.start == 0 && region.prefix == 0
    ensures PreorderAll(FullAll(region, nodes, false), depth) == NodesVisits(nodes, depth)
    decreases nodes, 0
  {
    if nodes != [] {
      PlainDocument(region, nodes[0], depth);
      PlainDocuments(region, nodes[1..], depth);
      var all := FullAll(region, nodes, false);
      assert all[0] == Full(region, nodes[0], false) && all[1..] == FullAll(region, nodes[1..], false);
    }
  }

  // ---- the response -------------------------------------------------------------------------------------

  datatype Response = Response(root: Rendered, emitted: nat, total: nat, truncated: bool)

  /**
    `validate_limits` and `render_document`. The rendered tree is the first `maxNodes` nodes, in
    preorder, of the merged tree down to `maxDepth`; it is reported complete exactly when it is the
    whole merged tree.
  */
  method RenderDocument(region: Region, node: Node, maxDepth: nat, maxNodes: nat, namedOnly: bool)
    returns (r: Option<Response>)
    ensures r.None? <==> maxNodes == 0
    ensures r.Some? ==>
              var limited := Prune(Full(region, node, namedOnly), maxDepth);
              && |Preorder(limited, 0)| == Size(limited)
              && Preorder(r.value.root, 0) == Preorder(limited, 0)[..Min(maxNodes, Size(limited))]
              && r.value.emitted == |Preorder(r.value.root, 0)|
    ensures r.Some? && AllWellHosted(region, namedOnly) ==>
              && r.value.total == Size(Full(region, node, namedOnly))
              && (!r.value.truncated <==> r.value.root == Full(region, node, namedOnly))
  {
    if maxNodes == 0 {
      return None;
    }
    var total := CountDocumentNodes(region, node, namedOnly);
    var budget := new Budget(maxNodes);
    var root := Build(budget, region, node, maxDepth, namedOnly);
    ghost var full := Full(region, node, namedOnly);
    ghost var limited := Prune(full, maxDepth);
    CutIsPrefix(limited, maxNodes, 0);
    PruneSize(full, maxDepth);
    if AllWellHosted(region, namedOnly) {
      DocumentSizeIsFullSize(region, node, namedOnly);
      if Size(limited) == Size(full) && Size(full) <= maxNodes {
        CutEverything(limited, maxNodes);
      }
    }
    return Some(Response(root.value, budget.emitted, total, budget.emitted < total));
  }
}
