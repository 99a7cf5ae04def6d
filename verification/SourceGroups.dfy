/** Declared source roots and the group a file belongs to (crates/workspace/src/source_group.rs). */
module SourceGroups {
  import opened Results

  /** A path is its components; `a <= b` on paths is `b.starts_with(a)`. */
  type Path = seq<string>

  datatype Root = Root(group: nat, path: Path, alternate: Option<Path>, srcset: Option<string>)

  // ---- validation ------------------------------------------------------------------------------------------

  predicate UniqueRoots(roots: seq<Root>) {
    forall i, j | 0 <= i < j < |roots| :: roots[i].path != roots[j].path
  }

  predicate Overlap(a: Root, b: Root) {
    a.group != b.group && (b.path <= a.path || a.path <= b.path)
  }

  predicate GroupsApart(roots: seq<Root>) {
    forall i, j | 0 <= i < j < |roots| :: !Overlap(roots[i], roots[j])
  }

  /** `validate_unique_roots`. */
  method ValidateUniqueRoots(roots: seq<Root>) returns (ok: bool)
    ensures ok <==> UniqueRoots(roots)
  {
    for idx := 0 to |roots|
      invariant forall i, j | 0 <= i < j < idx :: roots[i].path != roots[j].path
    {
      for k := 0 to idx
        invariant forall i | 0 <= i < k :: roots[i].path != roots[idx].path
      {
        if roots[k].path == roots[idx].path {
          return false;
        }
      }
    }
    return true;
  }

  /** `validate_group_boundaries`. */
  method ValidateGroupBoundaries(roots: seq<Root>) returns (ok: bool)
    ensures ok <==> GroupsApart(roots)
  {
    for idx := 0 to |roots|
      invariant forall i, j | 0 <= i < idx && i < j < |roots| :: !Overlap(roots[i], roots[j])
    {
      for k := idx + 1 to |roots|
        invariant forall j | idx < j < k :: !Overlap(roots[idx], roots[j])
      {
        if Overlap(roots[idx], roots[k]) {
          return false;
        }
      }
    }
    return true;
  }

  /** A root below another of the same group is accepted, and so are roots of different groups side by side. */
  lemma NestedRootsAreAccepted(g: nat, p: Path, below: Path, a: Root, b: Root)
    requires below != [] && a.group == b.group == g && a.path == p && b.path == p + below
    ensures UniqueRoots([a, b]) && GroupsApart([a, b]) && UniqueRoots([b, a]) && GroupsApart([b, a])
  {
  }

  /** A root below another of a different group is rejected, whichever comes first. */
  lemma NestedGroupsAreRejected(p: Path, below: Path, a: Root, b: Root)
    requires a.group != b.group && a.path == p && b.path == p + below
    ensures !GroupsApart([a, b]) && !GroupsApart([b, a])
  {
    assert p <= p + below;
    assert [a, b][0] == a && [a, b][1] == b && [b, a][0] == b && [b, a][1] == a;
  }

  // ---- the order by depth --------------------------------------------------------------------------------------

  predicate DeepestFirst(roots: seq<Root>) {
    forall i, j | 0 <= i < j < |roots| :: |roots[i].path| >= |roots[j].path|
  }

  function InsertByDepth(root: Root, sorted: seq<Root>): (r: seq<Root>)
    ensures multiset(r) == multiset(sorted) + multiset{root}
  {
    if sorted == [] || |root.path| >= |sorted[0].path| then [root] + sorted
    else
      assert sorted == [sorted[0]] + sorted[1..];
      [sorted[0]] + InsertByDepth(root, sorted[1..])
  }

  /** The stable sort by descending number of components. */
  function SortByDepth(roots: seq<Root>): (r: seq<Root>)
    ensures multiset(r) == multiset(roots)
  {
    if roots == [] then []
    else
      assert roots == [roots[0]] + roots[1..];
      InsertByDepth(roots[0], SortByDepth(roots[1..]))
  }

  lemma {:induction false} InsertKeepsOrder(root: Root, sorted: seq<Root>)
    requires DeepestFirst(sorted)
    ensures DeepestFirst(InsertByDepth(root, sorted))
  {
    if sorted != [] && |root.path| < |sorted[0].path| {
      InsertKeepsOrder(root, sorted[1..]);
      var tail := InsertByDepth(root, sorted[1..]);
      forall x | x in tail
        ensures |x.path| <= |sorted[0].path|
      {
        assert x in multiset(tail);
        assert x == root || x in multiset(sorted[1..]);
      }
    }
  }

  lemma {:induction false} SortIsDeepestFirst(roots: seq<Root>)
    ensures DeepestFirst(SortByDepth(roots))
  {
    if roots != [] {
      SortIsDeepestFirst(roots[1..]);
      InsertKeepsOrder(roots[0], SortByDepth(roots[1..]));
    }
  }

  /** `from_config`, after the roots are declared: the accepted roots, deepest first, or an error. */
  method FromConfig(declared: seq<Root>) returns (roots: Option<seq<Root>>)
    ensures roots == if UniqueRoots(declared) && GroupsApart(declared) then Some(SortByDepth(declared)) else None
  {
    var unique := ValidateUniqueRoots(declared);
    if !unique {
      return None;
    }
    var apart := ValidateGroupBoundaries(declared);
    return if apart then Some(SortByDepth(declared)) else None;
  }

  // ---- membership -----------------------------------------------------------------------------------------------

  predicate Covers(root: Root, file: Path) {
    root.path <= file || (root.alternate.Some? && root.alternate.value <= file)
  }

  /** `membership`: the first root that covers the file. */
  function Membership(roots: seq<Root>, file: Path): (r: Option<Root>)
    ensures r.Some? ==> r.value in roots && Covers(r.value, file)
    ensures r.None? ==> forall root | root in roots :: !Covers(root, file)
  {
    if roots == [] then None
    else if Covers(roots[0], file) then Some(roots[0])
    else Membership(roots[1..], file)
  }

  /** No root covers the file by its alternate path alone. */
  predicate CanonicallyCovered(roots: seq<Root>, file: Path) {
    forall root | root in roots :: Covers(root, file) ==> root.path <= file
  }

  /** The root with the longest path among those that contain the file, and the only one that long. */
  predicate Deepest(root: Root, roots: seq<Root>, file: Path) {
    && root in roots && root.path <= file
    && forall other | other in roots && other.path <= file :: other == root || |other.path| < |root.path|
  }

  /** A root that covers the file, by either path, and has as many components as any that does. */
  predicate DeepestCovering(root: Root, roots: seq<Root>, file: Path) {
    && root in roots && Covers(root, file)
    && forall other | other in roots && Covers(other, file) :: |other.path| <= |root.path|
  }

  lemma {:induction false} FirstIsDeepest(sorted: seq<Root>, file: Path)
    requires DeepestFirst(sorted)
    ensures Membership(sorted, file).Some? ==> DeepestCovering(Membership(sorted, file).value, sorted, file)
  {
    if sorted != [] && !Covers(sorted[0], file) {
      FirstIsDeepest(sorted[1..], file);
    }
  }

  /** Two prefixes of one path are equal when they are equally long. */
  lemma EqualPrefixes(a: Path, b: Path, file: Path)
    requires a <= file && b <= file
    ensures a <= b || b <= a
    ensures |a| == |b| ==> a == b
  {
    assert a == file[..|a|] && b == file[..|b|];
  }

  /** All roots of an accepted configuration that contain a file belong to one group. */
  lemma ContainingRootsShareGroup(roots: seq<Root>, file: Path, a: Root, b: Root)
    requires GroupsApart(roots) && a in roots && b in roots
    requires a.path <= file && b.path <= file
    ensures a.group == b.group
  {
    EqualPrefixes(a.path, b.path, file);
    var i :| 0 <= i < |roots| && roots[i] == a;
    var j :| 0 <= j < |roots| && roots[j] == b;
    if i < j {
      assert !Overlap(roots[i], roots[j]);
    } else if j < i {
      assert !Overlap(roots[j], roots[i]);
    }
  }

  lemma SamePathSameRoot(roots: seq<Root>, a: Root, b: Root)
    requires UniqueRoots(roots) && a in roots && b in roots && a.path == b.path
    ensures a == b
  {
    var i :| 0 <= i < |roots| && roots[i] == a;
    var j :| 0 <= j < |roots| && roots[j] == b;
    assert i == j;
  }

  predicate SameMembers(a: seq<Root>, b: seq<Root>) {
    (forall root | root in a :: root in b) && (forall root | root in b :: root in a)
  }

  lemma PermutationHasSameMembers(a: seq<Root>, b: seq<Root>)
    requires multiset(a) == multiset(b)
    ensures SameMembers(a, b)
  {
    assert forall root | root in a :: root in multiset(b);
    assert forall root | root in b :: root in multiset(a);
  }

  /** What a membership may be, whatever the order. */
  predicate Answers(m: Option<Root>, roots: seq<Root>, file: Path) {
    && (m.Some? ==> DeepestCovering(m.value, roots, file))
    && (m.None? ==> forall root | root in roots :: !Covers(root, file))
  }

  /** Whichever path covers a file, its membership is a deepest root that does, if there is one. */
  lemma MembershipIsDeepestCovering(declared: seq<Root>, file: Path)
    ensures Answers(Membership(SortByDepth(declared), file), declared, file)
  {
    var sorted := SortByDepth(declared);
    SortIsDeepestFirst(declared);
    PermutationHasSameMembers(sorted, declared);
    FirstIsDeepest(sorted, file);
  }

  /** Of the canonical paths of distinct roots that contain a file, only one is deepest. */
  lemma DeepestIsUnique(declared: seq<Root>, file: Path, root: Root)
    requires UniqueRoots(declared) && CanonicallyCovered(declared, file) && DeepestCovering(root, declared, file)
    ensures Deepest(root, declared, file)
  {
    forall other | other in declared && other.path <= file
      ensures other == root || |other.path| < |root.path|
    {
      EqualPrefixes(other.path, root.path, file);
      if |other.path| == |root.path| {
        SamePathSameRoot(declared, other, root);
      }
    }
  }

  /**
    A file's membership is a deepest root that covers it; when no alternate path is involved, the
    unique deepest declared root that contains it.
  */
  lemma MembershipIsDeepest(declared: seq<Root>, file: Path)
    requires UniqueRoots(declared)
    ensures var m := Membership(SortByDepth(declared), file);
            && (m.Some? <==> exists root | root in declared :: Covers(root, file))
            && (m.Some? ==> DeepestCovering(m.value, declared, file))
            && (m.Some? && CanonicallyCovered(declared, file) ==> Deepest(m.value, declared, file))
  {
    MembershipIsDeepestCovering(declared, file);
    var m := Membership(SortByDepth(declared), file);
    if m.Some? && CanonicallyCovered(declared, file) {
      DeepestIsUnique(declared, file, m.value);
    }
  }

  // ---- the order of declaration ------------------------------------------------------------------------------

  /** What `membership` returns of the root it finds. */
  datatype Answer = Answer(group: nat, srcset: Option<string>)

  function AnswerOf(root: Root): Answer {
    Answer(root.group, root.srcset)
  }

  /** The answer for a file, from the roots as they were declared. */
  function Lookup(declared: seq<Root>, file: Path): Option<Answer> {
    var m := Membership(SortByDepth(declared), file);
    if m.Some? then Some(AnswerOf(m.value)) else None
  }

  /** The root of the answer without any sorting: the first declared among the deepest that cover the file. */
  function FirstDeepest(declared: seq<Root>, file: Path): Option<Root> {
    if declared == [] then None
    else
      var later := FirstDeepest(declared[1..], file);
      if Covers(declared[0], file) && (later.None? || |declared[0].path| >= |later.value.path|)
      then Some(declared[0]) else later
  }

  lemma {:induction false} MembershipOfInserted(root: Root, sorted: seq<Root>, file: Path)
    requires DeepestFirst(sorted)
    ensures var m := Membership(sorted, file);
            Membership(InsertByDepth(root, sorted), file) ==
            if Covers(root, file) && (m.None? || |root.path| >= |m.value.path|) then Some(root) else m
  {
    FirstIsDeepest(sorted, file);
    if sorted != [] && |root.path| < |sorted[0].path| {
      MembershipOfInserted(root, sorted[1..], file);
    } else if sorted != [] {
      assert forall other | other in sorted :: |other.path| <= |sorted[0].path|;
    }
  }

  /** The sort is stable, so among equally deep roots the one declared first answers. */
  lemma {:induction false} FirstDeclaredAnswers(declared: seq<Root>, file: Path)
    ensures Membership(SortByDepth(declared), file) == FirstDeepest(declared, file)
  {
    if declared != [] {
      FirstDeclaredAnswers(declared[1..], file);
      SortIsDeepestFirst(declared[1..]);
      MembershipOfInserted(declared[0], SortByDepth(declared[1..]), file);
    }
  }

  /** The root at `i` is as deep as any that covers the file, and none declared before it is. */
  predicate FirstAt(declared: seq<Root>, file: Path, i: nat) {
    && i < |declared| && Covers(declared[i], file)
    && (forall j | 0 <= j < |declared| && Covers(declared[j], file) :: |declared[j].path| <= |declared[i].path|)
    && (forall j | 0 <= j < i && Covers(declared[j], file) :: |declared[j].path| < |declared[i].path|)
  }

  /** A root in front of the others either comes first itself or moves the first one up by one. */
  lemma FirstBehind(declared: seq<Root>, rest: seq<Root>, file: Path, i: nat)
    requires declared != [] && rest == declared[1..] && FirstAt(rest, file, i)
    ensures if Covers(declared[0], file) && |declared[0].path| >= |rest[i].path| then FirstAt(declared, file, 0)
            else FirstAt(declared, file, i + 1) && declared[i + 1] == rest[i]
  {
    assert forall j | 1 <= j < |declared| :: declared[j] == rest[j - 1];
  }

  lemma {:induction false} NoneCovers(declared: seq<Root>, file: Path)
    requires FirstDeepest(declared, file).None?
    ensures forall j | 0 <= j < |declared| :: !Covers(declared[j], file)
  {
    if declared != [] {
      var rest := declared[1..];
      NoneCovers(rest, file);
      assert forall j | 1 <= j < |declared| :: declared[j] == rest[j - 1];
    }
  }

  /** Where the first deepest root stands. */
  lemma {:induction false} FirstDeepestAt(declared: seq<Root>, file: Path) returns (i: nat)
    requires FirstDeepest(declared, file).Some?
    ensures FirstAt(declared, file, i) && declared[i] == FirstDeepest(declared, file).value
  {
    var rest := declared[1..];
    if FirstDeepest(rest, file).Some? {
      var k := FirstDeepestAt(rest, file);
      FirstBehind(declared, rest, file, k);
      i := if Covers(declared[0], file) && |declared[0].path| >= |rest[k].path| then 0 else k + 1;
    } else {
      NoneCovers(rest, file);
      assert forall j | 1 <= j < |declared| :: declared[j] == rest[j - 1];
      i := 0;
    }
  }

  lemma OneFirst(declared: seq<Root>, file: Path, i: nat, j: nat)
    requires FirstAt(declared, file, i) && FirstAt(declared, file, j)
    ensures i == j
  {
  }

  /** The answer is the first deepest root's, wherever it stands. */
  lemma {:induction false} LookupIsFirst(declared: seq<Root>, file: Path, i: nat)
    requires FirstAt(declared, file, i)
    ensures Lookup(declared, file) == Some(AnswerOf(declared[i]))
  {
    FirstDeclaredAnswers(declared, file);
    if FirstDeepest(declared, file).None? {
      NoneCovers(declared, file);
    } else {
      var j := FirstDeepestAt(declared, file);
      OneFirst(declared, file, i, j);
    }
  }

  /** A covered file has a first deepest root. */
  lemma {:induction false} FindFirst(declared: seq<Root>, file: Path, root: Root) returns (i: nat)
    requires root in declared && Covers(root, file)
    ensures FirstAt(declared, file, i)
  {
    if FirstDeepest(declared, file).None? {
      NoneCovers(declared, file);
      assert false;
    }
    i := FirstDeepestAt(declared, file);
  }

  lemma NotCovered(declared: seq<Root>, file: Path)
    requires forall root | root in declared :: !Covers(root, file)
    ensures Lookup(declared, file) == None
  {
    MembershipIsDeepestCovering(declared, file);
  }

  ghost predicate Reordered(a: seq<Root>, b: seq<Root>) {
    multiset(a) == multiset(b)
  }

  /** Every way to list the same roots gives the file the same answer. */
  ghost predicate OrderIsIrrelevant(roots: seq<Root>, file: Path) {
    forall other: seq<Root> | Reordered(other, roots) :: Lookup(other, file) == Lookup(roots, file)
  }

  /** The deepest roots that cover the file are of one group and one srcset. */
  predicate DeepestAgree(roots: seq<Root>, file: Path) {
    forall a, b | a in roots && b in roots ::
      DeepestCovering(a, roots, file) && DeepestCovering(b, roots, file) ==> AnswerOf(a) == AnswerOf(b)
  }

  /** Swapping two of the roots. */
  function Swapped(roots: seq<Root>, i: nat, j: nat): (r: seq<Root>)
    requires i < |roots| && j < |roots|
    ensures |r| == |roots|
  {
    roots[i := roots[j]][j := roots[i]]
  }

  lemma SwappedIsReordered(roots: seq<Root>, i: nat, j: nat)
    requires i < |roots| && j < |roots|
    ensures Reordered(Swapped(roots, i, j), roots)
  {
  }

  /** A deepest root swapped with the first deepest one becomes the first. */
  lemma SwappedIsFirst(roots: seq<Root>, file: Path, i: nat, j: nat)
    requires FirstAt(roots, file, i) && j < |roots| && DeepestCovering(roots[j], roots, file)
    ensures FirstAt(Swapped(roots, i, j), file, i)
  {
    var other := Swapped(roots, i, j);
    assert roots[i] in roots && |roots[j].path| == |roots[i].path| && i <= j;
    assert forall k | 0 <= k < |roots| && k != i && k != j :: other[k] == roots[k];
  }

  lemma SwapAnswers(roots: seq<Root>, file: Path, i: nat, j: nat)
    requires FirstAt(roots, file, i) && j < |roots| && DeepestCovering(roots[j], roots, file)
    ensures Lookup(roots, file) == Some(AnswerOf(roots[i]))
    ensures Lookup(Swapped(roots, i, j), file) == Some(AnswerOf(roots[j]))
  {
    SwappedIsFirst(roots, file, i, j);
    LookupIsFirst(roots, file, i);
    LookupIsFirst(Swapped(roots, i, j), file, i);
  }

  lemma OrderForcesAgreement(roots: seq<Root>, file: Path, root: Root)
    requires OrderIsIrrelevant(roots, file) && DeepestCovering(root, roots, file)
    ensures Lookup(roots, file) == Some(AnswerOf(root))
  {
    var i := FindFirst(roots, file, root);
    var j :| 0 <= j < |roots| && roots[j] == root;
    SwappedIsReordered(roots, i, j);
    SwapAnswers(roots, file, i, j);
  }

  lemma AnswersForSameMembers(m: Option<Root>, a: seq<Root>, b: seq<Root>, file: Path)
    requires SameMembers(a, b) && Answers(m, a, file)
    ensures Answers(m, b, file)
  {
  }

  lemma AgreementDecides(roots: seq<Root>, other: seq<Root>, file: Path)
    requires DeepestAgree(roots, file) && Reordered(other, roots)
    ensures Lookup(other, file) == Lookup(roots, file)
  {
    MembershipIsDeepestCovering(roots, file);
    MembershipIsDeepestCovering(other, file);
    PermutationHasSameMembers(other, roots);
    AnswersForSameMembers(Membership(SortByDepth(other), file), other, roots, file);
  }

  /**
    The order in which roots are listed does not matter for a file exactly when the deepest roots
    that cover it are of one group and one srcset.
  */
  lemma DeclarationOrderIsIrrelevant(roots: seq<Root>, file: Path)
    ensures OrderIsIrrelevant(roots, file) <==> DeepestAgree(roots, file)
  {
    if OrderIsIrrelevant(roots, file) {
      forall a, b | a in roots && b in roots && DeepestCovering(a, roots, file) && DeepestCovering(b, roots, file)
        ensures AnswerOf(a) == AnswerOf(b)
      {
        OrderForcesAgreement(roots, file, a);
        OrderForcesAgreement(roots, file, b);
      }
    }
    if DeepestAgree(roots, file) {
      forall other: seq<Root> | Reordered(other, roots)
        ensures Lookup(other, file) == Lookup(roots, file)
      {
        AgreementDecides(roots, other, file);
      }
    }
  }

  /** So for files that no alternate path covers it never matters. */
  lemma CanonicalOrderIsIrrelevant(roots: seq<Root>, file: Path)
    requires UniqueRoots(roots) && CanonicallyCovered(roots, file)
    ensures OrderIsIrrelevant(roots, file)
  {
    forall a, b | a in roots && b in roots && DeepestCovering(a, roots, file) && DeepestCovering(b, roots, file)
      ensures AnswerOf(a) == AnswerOf(b)
    {
      DeepestIsUnique(roots, file, a);
    }
    DeclarationOrderIsIrrelevant(roots, file);
  }

  // ---- the order within a group --------------------------------------------------------------------------------

  /** Roots are declared group by group, and a root's group is the position of its group. */
  predicate GroupByGroup(roots: seq<Root>) {
    forall i, j | 0 <= i < j < |roots| :: roots[i].group <= roots[j].group
  }

  /** The same roots, reordered within their groups. */
  ghost predicate ReorderedWithin(a: seq<Root>, b: seq<Root>) {
    Reordered(a, b) && |a| == |b| && forall i | 0 <= i < |a| :: a[i].group == b[i].group
  }

  ghost predicate OrderWithinIsIrrelevant(roots: seq<Root>, file: Path) {
    forall other: seq<Root> | ReorderedWithin(other, roots) :: Lookup(other, file) == Lookup(roots, file)
  }

  /** The deepest covering roots of the first group that has one. */
  predicate FirstGroupDeepest(root: Root, roots: seq<Root>, file: Path) {
    && DeepestCovering(root, roots, file)
    && forall other | other in roots && DeepestCovering(other, roots, file) :: root.group <= other.group
  }

  predicate FirstGroupAgrees(roots: seq<Root>, file: Path) {
    forall a, b | a in roots && b in roots ::
      FirstGroupDeepest(a, roots, file) && FirstGroupDeepest(b, roots, file) ==> a.srcset == b.srcset
  }

  lemma FirstIsOfFirstGroup(roots: seq<Root>, file: Path, i: nat)
    requires GroupByGroup(roots) && FirstAt(roots, file, i)
    ensures FirstGroupDeepest(roots[i], roots, file)
  {
    forall other | other in roots && DeepestCovering(other, roots, file)
      ensures roots[i].group <= other.group
    {
      var j :| 0 <= j < |roots| && roots[j] == other;
      assert roots[i] in roots;
    }
  }

  lemma WithinForcesAgreement(roots: seq<Root>, file: Path, root: Root)
    requires GroupByGroup(roots) && OrderWithinIsIrrelevant(roots, file)
    requires root in roots && FirstGroupDeepest(root, roots, file)
    ensures Lookup(roots, file) == Some(AnswerOf(root))
  {
    var i := FindFirst(roots, file, root);
    var j :| 0 <= j < |roots| && roots[j] == root;
    FirstIsOfFirstGroup(roots, file, i);
    assert roots[i] in roots && roots[i].group == roots[j].group;
    SwappedIsReordered(roots, i, j);
    assert ReorderedWithin(Swapped(roots, i, j), roots);
    SwapAnswers(roots, file, i, j);
  }

  lemma FirstGroupForSameMembers(root: Root, a: seq<Root>, b: seq<Root>, file: Path)
    requires SameMembers(a, b) && FirstGroupDeepest(root, a, file)
    ensures FirstGroupDeepest(root, b, file)
  {
    assert DeepestCovering(root, b, file);
    assert forall other :: DeepestCovering(other, b, file) ==> DeepestCovering(other, a, file);
  }

  /** Whatever the order within groups, a deepest root of the same group answers. */
  lemma BothOfFirstGroup(roots: seq<Root>, other: seq<Root>, file: Path, root: Root) returns (a: Root, b: Root)
    requires GroupByGroup(roots) && ReorderedWithin(other, roots) && root in roots && Covers(root, file)
    ensures Lookup(roots, file) == Some(AnswerOf(a)) && Lookup(other, file) == Some(AnswerOf(b))
    ensures a in roots && FirstGroupDeepest(a, roots, file) && b in roots && FirstGroupDeepest(b, roots, file)
    ensures a.group == b.group
  {
    PermutationHasSameMembers(other, roots);
    var i := FindFirst(roots, file, root);
    var j := FindFirst(other, file, root);
    LookupIsFirst(roots, file, i);
    LookupIsFirst(other, file, j);
    FirstIsOfFirstGroup(roots, file, i);
    FirstIsOfFirstGroup(other, file, j);
    FirstGroupForSameMembers(other[j], other, roots, file);
    a, b := roots[i], other[j];
  }

  lemma NeitherCovered(roots: seq<Root>, other: seq<Root>, file: Path)
    requires Reordered(other, roots) && forall root | root in roots :: !Covers(root, file)
    ensures Lookup(roots, file) == None && Lookup(other, file) == None
  {
    PermutationHasSameMembers(other, roots);
    NotCovered(roots, file);
    NotCovered(other, file);
  }

  lemma FirstGroupDecides(roots: seq<Root>, other: seq<Root>, file: Path)
    requires GroupByGroup(roots) && FirstGroupAgrees(roots, file) && ReorderedWithin(other, roots)
    ensures Lookup(other, file) == Lookup(roots, file)
  {
    if root :| root in roots && Covers(root, file) {
      var a, b := BothOfFirstGroup(roots, other, file, root);
    } else {
      NeitherCovered(roots, other, file);
    }
  }

  /** The group of the answer does not depend on the order of roots within their groups. */
  lemma GroupIsSettled(roots: seq<Root>, other: seq<Root>, file: Path)
    requires GroupByGroup(roots) && ReorderedWithin(other, roots)
    ensures var a, b := Lookup(roots, file), Lookup(other, file);
            (a.None? && b.None?) || (a.Some? && b.Some? && a.value.group == b.value.group)
  {
    if root :| root in roots && Covers(root, file) {
      var a, b := BothOfFirstGroup(roots, other, file, root);
    } else {
      NeitherCovered(roots, other, file);
    }
  }

  /**
    The order of roots within their groups does not matter for a file exactly when the deepest roots
    that cover it agree on the srcset, as far as they are of the first group that has one.
  */
  lemma OrderWithinGroups(roots: seq<Root>, file: Path)
    requires GroupByGroup(roots)
    ensures OrderWithinIsIrrelevant(roots, file) <==> FirstGroupAgrees(roots, file)
  {
    if OrderWithinIsIrrelevant(roots, file) {
      forall a, b | a in roots && b in roots && FirstGroupDeepest(a, roots, file) && FirstGroupDeepest(b, roots, file)
        ensures a.srcset == b.srcset
      {
        WithinForcesAgreement(roots, file, a);
        WithinForcesAgreement(roots, file, b);
      }
    }
    if FirstGroupAgrees(roots, file) {
      forall other: seq<Root> | ReorderedWithin(other, roots)
        ensures Lookup(other, file) == Lookup(roots, file)
      {
        FirstGroupDecides(roots, other, file);
      }
    }
  }

  // ---- where it does matter ----------------------------------------------------------------------------------

  lemma PairIsAccepted(a: Root, b: Root)
    requires !(a.path <= b.path) && !(b.path <= a.path)
    ensures UniqueRoots([a, b]) && GroupsApart([a, b])
  {
  }

  lemma PairAnswers(a: Root, b: Root, file: Path)
    requires |a.path| == |b.path| && Covers(a, file) && Covers(b, file)
    ensures Lookup([a, b], file) == Some(AnswerOf(a))
  {
    assert FirstAt([a, b], file, 0);
    LookupIsFirst([a, b], file, 0);
  }

  /**
    A root `p`, and a root declared as `p/l`, a link to its neighbour `q`. Both orders are accepted,
    and a file under `p/l` gets the group and srcset of whichever is declared first.
  */
  lemma LinkedRootsDependOnOrder(p: string, q: string, l: string, below: Path, g: nat, h: nat,
                                 s: Option<string>, t: Option<string>)
    requires p != q
    ensures var a, b := Root(g, [p], None, s), Root(h, [q], Some([p, l]), t);
            var file := [p, l] + below;
            && UniqueRoots([a, b]) && GroupsApart([a, b]) && UniqueRoots([b, a]) && GroupsApart([b, a])
            && Lookup([a, b], file) == Some(Answer(g, s))
            && Lookup([b, a], file) == Some(Answer(h, t))
  {
    var a, b := Root(g, [p], None, s), Root(h, [q], Some([p, l]), t);
    var file := [p, l] + below;
    assert a.path[0] == p && b.path[0] == q && file[0] == p;
    assert Covers(a, file) && Covers(b, file);
    PairIsAccepted(a, b);
    PairIsAccepted(b, a);
    PairAnswers(a, b, file);
    PairAnswers(b, a, file);
  }
}
