/**
  The resolution audit (crates/workspace/src/audit.rs): every reference in scope falls into one
  category, and the uncertain ones are gathered into clusters and zones.
*/
module ResolutionAudit {
  import opened Numbers
  import opened Results
  import opened Ranking

  /** `detail` stands for the parts of a pattern that come from the reference itself. */
  datatype Reference = Reference(id: nat, source: string, detail: string)

  datatype Origin = Sdk | Dependency | Injected | UnknownExternal
  datatype Candidate = Candidate(reason: string, evidence: string, weakNameMatch: bool)

  /** The linkage decisions by reference; `named` are the symbols that still have an identity. */
  datatype Lookups = Lookups(
    resolved: map<nat, nat>, named: set<nat>, nameMatched: set<nat>, candidates: map<nat, Candidate>,
    external: map<nat, Origin>, dynamic: map<nat, string>, blocked: map<nat, string>, unresolved: map<nat, string>)

  /** The category of a reference. */
  datatype Category =
    | Unique | CandidateOnly | FromSdk | FromDependency | FromInjected | FromUnknown | Dynamic | Blocked | Unresolved

  datatype Classification = Classification(status: Category, reason: string, evidence: string)
  datatype Pattern = Pattern(status: Category, reason: string, evidence: string, detail: string)

  datatype Totals = Totals(
    references: nat, unique: nat, candidate: nat, external: nat, sdk: nat, dependency: nat, injected: nat,
    unknownExternal: nat, dynamic: nat, blocked: nat, unresolved: nat, nameMatchCandidate: nat,
    resolved: nat, explained: nat, weakOrUnexplained: nat)

  const NO_TOTALS := Totals(0, 0, 0, 0, 0, 0, 0, 0, 0, 0, 0, 0, 0, 0, 0)

  // ---- one reference --------------------------------------------------------------------------------------

  /** What linkage has decided about a reference, read off the lookups. */
  datatype Decision =
    | InScopeAtAll | BoundByIdentity | BoundByName | Dangling | HasCandidate | WeaklyMatched
    | External(origin: Origin) | AtRuntime | ByPolicy | Undecided

  /** A binding comes first, then a candidate, an external origin, runtime dispatch and policy. */
  predicate Decided(l: Lookups, id: nat, d: Decision) {
    match d
    case InScopeAtAll => true
    case BoundByIdentity => id in l.resolved && l.resolved[id] in l.named && id !in l.nameMatched
    case BoundByName => id in l.resolved && l.resolved[id] in l.named && id in l.nameMatched
    case Dangling => id in l.resolved && l.resolved[id] !in l.named
    case HasCandidate => id !in l.resolved && id in l.candidates
    case WeaklyMatched =>
      || (id in l.resolved && l.resolved[id] in l.named && id in l.nameMatched)
      || (id !in l.resolved && id in l.candidates && l.candidates[id].weakNameMatch)
    case External(origin) =>
      id !in l.resolved && id !in l.candidates && id in l.external && l.external[id] == origin
    case AtRuntime => id !in l.resolved && id !in l.candidates && id !in l.external && id in l.dynamic
    case ByPolicy =>
      id !in l.resolved && id !in l.candidates && id !in l.external && id !in l.dynamic && id in l.blocked
    case Undecided =>
      id !in l.resolved && id !in l.candidates && id !in l.external && id !in l.dynamic && id !in l.blocked
  }

  /** A classification that states the decision's own reason and evidence. */
  predicate Explains(l: Lookups, id: nat, c: Classification) {
    && (Decided(l, id, Dangling) ==> c == Classification(Unresolved, "dangling_binding", "linkage"))
    && (Decided(l, id, BoundByName) ==> c == Classification(CandidateOnly, "weak_name_match", "name_match"))
    && (Decided(l, id, HasCandidate) ==>
          c == Classification(CandidateOnly, l.candidates[id].reason, l.candidates[id].evidence))
    && (Decided(l, id, External(UnknownExternal)) ==> c == Classification(FromUnknown, "unknown_external", "extractor"))
    && (Decided(l, id, AtRuntime) ==> c == Classification(Dynamic, l.dynamic[id], "runtime"))
    && (Decided(l, id, ByPolicy) ==> c == Classification(Blocked, l.blocked[id], "policy"))
    && (Decided(l, id, Undecided) ==>
          c == Classification(Unresolved, if id in l.unresolved then l.unresolved[id] else "missing_decision", ""))
  }

  /** The decisions nobody needs to look at again. */
  predicate NeedsNoLook(l: Lookups, id: nat) {
    || Decided(l, id, BoundByIdentity) || Decided(l, id, External(Sdk))
    || Decided(l, id, External(Dependency)) || Decided(l, id, External(Injected))
  }

  /** The decision that counts: the first that applies. */
  function CategoryOf(l: Lookups, id: nat): Category {
    if id in l.resolved then
      if l.resolved[id] !in l.named then Unresolved else if id in l.nameMatched then CandidateOnly else Unique
    else if id in l.candidates then CandidateOnly
    else if id in l.external then
      match l.external[id]
      case Sdk => FromSdk
      case Dependency => FromDependency
      case Injected => FromInjected
      case UnknownExternal => FromUnknown
    else if id in l.dynamic then Dynamic
    else if id in l.blocked then Blocked
    else Unresolved
  }

  /** Settled references are counted and not looked at further. */
  predicate Settled(c: Category) {
    c == Unique || c == FromSdk || c == FromDependency || c == FromInjected
  }

  function ClassificationOf(l: Lookups, id: nat): (c: Classification)
    ensures c.status == CategoryOf(l, id)
  {
    var status := CategoryOf(l, id);
    if id in l.resolved then
      if status == Unresolved then Classification(status, "dangling_binding", "linkage")
      else Classification(status, "weak_name_match", "name_match")
    else
      match status
      case CandidateOnly => Classification(status, l.candidates[id].reason, l.candidates[id].evidence)
      case FromUnknown => Classification(status, "unknown_external", "extractor")
      case Dynamic => Classification(status, l.dynamic[id], "runtime")
      case Blocked => Classification(status, l.blocked[id], "policy")
      case _ => Classification(status, if id in l.unresolved then l.unresolved[id] else "missing_decision", "")
  }

  /** The total of one category. */
  function TotalOf(t: Totals, c: Category): nat {
    match c
    case Unique => t.unique
    case CandidateOnly => t.candidate
    case FromSdk => t.sdk
    case FromDependency => t.dependency
    case FromInjected => t.injected
    case FromUnknown => t.unknownExternal
    case Dynamic => t.dynamic
    case Blocked => t.blocked
    case Unresolved => t.unresolved
  }

  /** Candidates that rest on a name match alone. */
  predicate WeakCandidate(l: Lookups, id: nat) {
    if id in l.resolved then CategoryOf(l, id) == CandidateOnly
    else id in l.candidates && l.candidates[id].weakNameMatch
  }

  /** The totals with one more reference counted. */
  function Counted(l: Lookups, id: nat, t: Totals): Totals {
    var u := t.(nameMatchCandidate := t.nameMatchCandidate + if WeakCandidate(l, id) then 1 else 0);
    match CategoryOf(l, id)
    case Unique => u.(unique := t.unique + 1)
    case CandidateOnly => u.(candidate := t.candidate + 1)
    case FromSdk => u.(sdk := t.sdk + 1, external := t.external + 1)
    case FromDependency => u.(dependency := t.dependency + 1, external := t.external + 1)
    case FromInjected => u.(injected := t.injected + 1, external := t.external + 1)
    case FromUnknown => u.(unknownExternal := t.unknownExternal + 1, external := t.external + 1)
    case Dynamic => u.(dynamic := t.dynamic + 1)
    case Blocked => u.(blocked := t.blocked + 1)
    case Unresolved => u.(unresolved := t.unresolved + 1)
  }

  /** `classify_reference`: bumps the totals of one category, and classifies what is not settled. */
  method ClassifyReference(l: Lookups, r: Reference, totals: Totals) returns (t: Totals, c: Option<Classification>)
    ensures t == Counted(l, r.id, totals)
    ensures c == if Settled(CategoryOf(l, r.id)) then None else Some(ClassificationOf(l, r.id))
    ensures c.None? <==> NeedsNoLook(l, r.id)
    ensures c.Some? ==> Explains(l, r.id, c.value)
  {
    t := totals;
    if r.id in l.resolved {
      if l.resolved[r.id] !in l.named {
        t := t.(unresolved := t.unresolved + 1);
        return t, Some(Classification(Unresolved, "dangling_binding", "linkage"));
      }
      if r.id !in l.nameMatched {
        t := t.(unique := t.unique + 1);
        return t, None;
      }
      t := t.(candidate := t.candidate + 1, nameMatchCandidate := t.nameMatchCandidate + 1);
      return t, Some(Classification(CandidateOnly, "weak_name_match", "name_match"));
    }
    if r.id in l.candidates {
      var candidate := l.candidates[r.id];
      t := t.(candidate := t.candidate + 1);
      if candidate.weakNameMatch {
        t := t.(nameMatchCandidate := t.nameMatchCandidate + 1);
      }
      return t, Some(Classification(CandidateOnly, candidate.reason, candidate.evidence));
    }
    if r.id in l.external {
      t := t.(external := t.external + 1);
      match l.external[r.id]
      case Sdk => return t.(sdk := t.sdk + 1), None;
      case Dependency => return t.(dependency := t.dependency + 1), None;
      case Injected => return t.(injected := t.injected + 1), None;
      case UnknownExternal =>
        t := t.(unknownExternal := t.unknownExternal + 1);
        return t, Some(Classification(FromUnknown, "unknown_external", "extractor"));
    }
    if r.id in l.dynamic {
      return t.(dynamic := t.dynamic + 1), Some(Classification(Dynamic, l.dynamic[r.id], "runtime"));
    }
    if r.id in l.blocked {
      return t.(blocked := t.blocked + 1), Some(Classification(Blocked, l.blocked[r.id], "policy"));
    }
    return t.(unresolved := t.unresolved + 1),
           Some(Classification(Unresolved, if r.id in l.unresolved then l.unresolved[r.id] else "missing_decision", ""));
  }

  // ---- sums over maps ------------------------------------------------------------------------------------------

  ghost function SumOf<K>(m: map<K, nat>): nat {
    if m == map[] then 0 else var k :| k in m; m[k] + SumOf(m - {k})
  }

  lemma {:induction false} SumWithout<K>(m: map<K, nat>, k: K)
    requires k in m
    ensures SumOf(m) == m[k] + SumOf(m - {k})
  {
    var x :| x in m && SumOf(m) == m[x] + SumOf(m - {x});
    if x != k {
      SumWithout(m - {x}, k);
      SumWithout(m - {k}, x);
      assert m - {x} - {k} == m - {k} - {x};
    }
  }

  lemma SumBump<K>(m: map<K, nat>, k: K, n: nat)
    requires n == if k in m then m[k] else 0
    ensures SumOf(m[k := n + 1]) == SumOf(m) + 1
  {
    var bumped := m[k := n + 1];
    SumWithout(bumped, k);
    assert bumped - {k} == m - {k};
    if k in m {
      SumWithout(m, k);
    } else {
      assert m - {k} == m;
    }
  }

  // ---- the whole audit --------------------------------------------------------------------------------------------

  /** `scope`, `id`, `caption` and `zone` are the textual helpers, whatever they compute. */
  datatype Options = Options(
    sampleOffset: nat, sampleLimit: nat, clusterLimit: nat, zoneLimit: nat, cluster: Option<string>,
    scope: string -> bool, id: Pattern -> string, caption: Pattern -> string, zone: string -> string)

  datatype Cluster = Cluster(count: nat, samples: seq<Reference>)
  datatype Zone = Zone(unresolved: nat, labels: map<string, nat>)
  datatype Audit = Audit(totals: Totals, clusters: map<Pattern, Cluster>, zones: map<string, Zone>)

  function PatternOf(l: Lookups, r: Reference): Pattern {
    var c := ClassificationOf(l, r.id);
    Pattern(c.status, c.reason, c.evidence, r.detail)
  }

  /** A reference that is in scope, not settled, and passes the cluster filter. */
  predicate Gathered(l: Lookups, o: Options, r: Reference) {
    && o.scope(r.source) && !Settled(CategoryOf(l, r.id))
    && (o.cluster.None? || o.cluster.value == o.id(PatternOf(l, r)))
  }

  predicate InZone(l: Lookups, o: Options, r: Reference, zone: string) {
    Gathered(l, o, r) && CategoryOf(l, r.id) == Unresolved && o.zone(r.source) == zone
  }

  /** Which references to look at. */
  datatype Choice =
    | OfPattern(p: Pattern) | OfZone(z: string) | OfLabel(z: string, caption: string)
    | OfCategory(c: Category) | InScope

  predicate Chosen(l: Lookups, o: Options, choice: Choice, r: Reference) {
    match choice
    case OfPattern(p) => Gathered(l, o, r) && PatternOf(l, r) == p
    case OfZone(z) => InZone(l, o, r, z)
    case OfLabel(z, caption) => InZone(l, o, r, z) && o.caption(PatternOf(l, r)) == caption
    case OfCategory(c) => o.scope(r.source) && CategoryOf(l, r.id) == c
    case InScope => o.scope(r.source)
  }

  /** The chosen references, in order. */
  function Select(l: Lookups, o: Options, refs: seq<Reference>, choice: Choice): seq<Reference> {
    if refs == [] then []
    else
      var last := refs[|refs| - 1];
      Select(l, o, refs[..|refs| - 1], choice) + if Chosen(l, o, choice, last) then [last] else []
  }

  function Members(l: Lookups, o: Options, refs: seq<Reference>, p: Pattern): seq<Reference> {
    Select(l, o, refs, OfPattern(p))
  }

  function ZoneMembers(l: Lookups, o: Options, refs: seq<Reference>, zone: string): seq<Reference> {
    Select(l, o, refs, OfZone(zone))
  }

  function Scoped(l: Lookups, o: Options, refs: seq<Reference>, c: Category): seq<Reference> {
    Select(l, o, refs, OfCategory(c))
  }

  /** A page of samples. */
  function Window(members: seq<Reference>, offset: nat, limit: nat): seq<Reference> {
    members[Min(offset, |members|)..Min(offset + limit, |members|)]
  }

  function AddSample(c: Cluster, r: Reference, o: Options): Cluster {
    Cluster(c.count + 1,
            if c.count >= o.sampleOffset && |c.samples| < o.sampleLimit then c.samples + [r] else c.samples)
  }

  lemma WindowGrows(members: seq<Reference>, r: Reference, o: Options)
    ensures AddSample(Cluster(|members|, Window(members, o.sampleOffset, o.sampleLimit)), r, o)
         == Cluster(|members + [r]|, Window(members + [r], o.sampleOffset, o.sampleLimit))
  {
  }

  function ClusterOf(members: seq<Reference>, o: Options): Cluster {
    Cluster(|members|, Window(members, o.sampleOffset, o.sampleLimit))
  }

  /** A cluster exists if it has members, and then counts and samples exactly them. */
  ghost predicate ClusterHolds(l: Lookups, o: Options, refs: seq<Reference>, clusters: map<Pattern, Cluster>, p: Pattern) {
    var members := Members(l, o, refs, p);
    && (p in clusters <==> members != [])
    && (p in clusters ==> clusters[p] == ClusterOf(members, o))
  }

  ghost predicate ClustersHold(l: Lookups, o: Options, refs: seq<Reference>, clusters: map<Pattern, Cluster>) {
    forall p :: ClusterHolds(l, o, refs, clusters, p)
  }

  /** A zone exists if it has members, and counts them. */
  ghost predicate ZoneHolds(l: Lookups, o: Options, refs: seq<Reference>, zones: map<string, Zone>, z: string) {
    ZoneConsistsOf(zones, z, ZoneMembers(l, o, refs, z))
  }

  ghost predicate ZoneConsistsOf(zones: map<string, Zone>, z: string, members: seq<Reference>) {
    && (z in zones <==> members != [])
    && (z in zones ==> zones[z].unresolved == |members| && SumOf(zones[z].labels) == |members|)
  }

  function LabelsOf(zones: map<string, Zone>, z: string): map<string, nat> {
    if z in zones then zones[z].labels else map[]
  }

  /** A zone has a label if some member is captioned so, and counts exactly those members under it. */
  ghost predicate LabelHolds(l: Lookups, o: Options, refs: seq<Reference>, zones: map<string, Zone>,
                             z: string, caption: string)
  {
    var labels := LabelsOf(zones, z);
    var captioned := Select(l, o, refs, OfLabel(z, caption));
    && (caption in labels <==> captioned != [])
    && (caption in labels ==> labels[caption] == |captioned|)
  }

  ghost predicate ZonesHold(l: Lookups, o: Options, refs: seq<Reference>, zones: map<string, Zone>) {
    && (forall z :: ZoneHolds(l, o, refs, zones, z))
    && (forall z, caption :: LabelHolds(l, o, refs, zones, z, caption))
  }

  function ClusterCounts(clusters: map<Pattern, Cluster>): map<Pattern, nat> {
    map p | p in clusters :: clusters[p].count
  }

  function ZoneCounts(zones: map<string, Zone>): map<string, nat> {
    map z | z in zones :: zones[z].unresolved
  }

  function Gather(clusters: map<Pattern, Cluster>, p: Pattern, r: Reference, o: Options): map<Pattern, Cluster> {
    clusters[p := AddSample(if p in clusters then clusters[p] else Cluster(0, []), r, o)]
  }

  function GatherZone(zones: map<string, Zone>, z: string, caption: string): map<string, Zone> {
    var zone := if z in zones then zones[z] else Zone(0, map[]);
    var n := if caption in zone.labels then zone.labels[caption] else 0;
    zones[z := Zone(zone.unresolved + 1, zone.labels[caption := n + 1])]
  }

  lemma SelectSnoc(l: Lookups, o: Options, refs: seq<Reference>, r: Reference, choice: Choice)
    ensures Select(l, o, refs + [r], choice) ==
            if Chosen(l, o, choice, r) then Select(l, o, refs, choice) + [r] else Select(l, o, refs, choice)
  {
    assert (refs + [r])[..|refs|] == refs;
  }

  lemma ClusterStep(l: Lookups, o: Options, refs: seq<Reference>, r: Reference, clusters: map<Pattern, Cluster>, p: Pattern)
    requires ClusterHolds(l, o, refs, clusters, p)
    ensures Gathered(l, o, r) ==> ClusterHolds(l, o, refs + [r], Gather(clusters, PatternOf(l, r), r, o), p)
    ensures !Gathered(l, o, r) ==> ClusterHolds(l, o, refs + [r], clusters, p)
  {
    SelectSnoc(l, o, refs, r, OfPattern(p));
    WindowGrows(Members(l, o, refs, p), r, o);
  }

  lemma GatherCounts(clusters: map<Pattern, Cluster>, p: Pattern, r: Reference, o: Options)
    ensures SumOf(ClusterCounts(Gather(clusters, p, r, o))) == SumOf(ClusterCounts(clusters)) + 1
  {
    var n := if p in clusters then clusters[p].count else 0;
    assert ClusterCounts(Gather(clusters, p, r, o)) == ClusterCounts(clusters)[p := n + 1];
    SumBump(ClusterCounts(clusters), p, n);
  }

  lemma ClustersStep(l: Lookups, o: Options, refs: seq<Reference>, r: Reference, clusters: map<Pattern, Cluster>)
    requires ClustersHold(l, o, refs, clusters)
    ensures Gathered(l, o, r) ==> ClustersHold(l, o, refs + [r], Gather(clusters, PatternOf(l, r), r, o))
    ensures !Gathered(l, o, r) ==> ClustersHold(l, o, refs + [r], clusters)
  {
    var next := if Gathered(l, o, r) then Gather(clusters, PatternOf(l, r), r, o) else clusters;
    forall p
      ensures ClusterHolds(l, o, refs + [r], next, p)
    {
      assert ClusterHolds(l, o, refs, clusters, p);
      ClusterStep(l, o, refs, r, clusters, p);
    }
  }

  function ZonesWith(l: Lookups, o: Options, r: Reference, zones: map<string, Zone>): map<string, Zone> {
    GatherZone(zones, o.zone(r.source), o.caption(PatternOf(l, r)))
  }

  lemma GatherZoneMember(zones: map<string, Zone>, zone: string, caption: string, z: string,
                         members: seq<Reference>, r: Reference)
    requires ZoneConsistsOf(zones, z, members)
    ensures ZoneConsistsOf(GatherZone(zones, zone, caption), z, if z == zone then members + [r] else members)
  {
    var labels := LabelsOf(zones, z);
    SumBump(labels, caption, if caption in labels then labels[caption] else 0);
    if z !in zones {
      SumOfNothing(labels);
    }
  }

  lemma ZoneStep(l: Lookups, o: Options, refs: seq<Reference>, r: Reference, zones: map<string, Zone>, z: string)
    requires ZoneHolds(l, o, refs, zones, z)
    ensures InZone(l, o, r, o.zone(r.source)) ==> ZoneHolds(l, o, refs + [r], ZonesWith(l, o, r, zones), z)
    ensures !InZone(l, o, r, o.zone(r.source)) ==> ZoneHolds(l, o, refs + [r], zones, z)
  {
    SelectSnoc(l, o, refs, r, OfZone(z));
    GatherZoneMember(zones, o.zone(r.source), o.caption(PatternOf(l, r)), z, ZoneMembers(l, o, refs, z), r);
  }

  lemma LabelStep(l: Lookups, o: Options, refs: seq<Reference>, r: Reference, zones: map<string, Zone>,
                  z: string, caption: string)
    requires LabelHolds(l, o, refs, zones, z, caption)
    ensures InZone(l, o, r, o.zone(r.source)) ==>
              LabelHolds(l, o, refs + [r], ZonesWith(l, o, r, zones), z, caption)
    ensures !InZone(l, o, r, o.zone(r.source)) ==> LabelHolds(l, o, refs + [r], zones, z, caption)
  {
    SelectSnoc(l, o, refs, r, OfLabel(z, caption));
  }

  lemma GatherZoneCounts(zones: map<string, Zone>, z: string, caption: string)
    ensures SumOf(ZoneCounts(GatherZone(zones, z, caption))) == SumOf(ZoneCounts(zones)) + 1
  {
    var n := if z in zones then zones[z].unresolved else 0;
    assert ZoneCounts(GatherZone(zones, z, caption)) == ZoneCounts(zones)[z := n + 1];
    SumBump(ZoneCounts(zones), z, n);
  }

  lemma ZonesStep(l: Lookups, o: Options, refs: seq<Reference>, r: Reference, zones: map<string, Zone>)
    requires ZonesHold(l, o, refs, zones)
    ensures InZone(l, o, r, o.zone(r.source)) ==> ZonesHold(l, o, refs + [r], ZonesWith(l, o, r, zones))
    ensures !InZone(l, o, r, o.zone(r.source)) ==> ZonesHold(l, o, refs + [r], zones)
  {
    var next := if InZone(l, o, r, o.zone(r.source)) then ZonesWith(l, o, r, zones) else zones;
    forall z
      ensures ZoneHolds(l, o, refs + [r], next, z)
    {
      assert ZoneHolds(l, o, refs, zones, z);
      ZoneStep(l, o, refs, r, zones, z);
    }
    forall z, caption
      ensures LabelHolds(l, o, refs + [r], next, z, caption)
    {
      assert LabelHolds(l, o, refs, zones, z, caption);
      LabelStep(l, o, refs, r, zones, z, caption);
    }
  }

  /** The number of references in scope of each category is its total, and no reference is missed. */
  ghost predicate TotalsHold(l: Lookups, o: Options, refs: seq<Reference>, t: Totals) {
    && (forall c :: TotalOf(t, c) == |Scoped(l, o, refs, c)|)
    && t.references == |Select(l, o, refs, InScope)|
    && Balanced(t)
  }

  /** The external total is its provenance, and the categories partition the references. */
  predicate Balanced(t: Totals) {
    && t.external == t.sdk + t.dependency + t.injected + t.unknownExternal
    && t.references == t.unique + t.candidate + t.external + t.dynamic + t.blocked + t.unresolved
  }

  /** The references that are gathered when there is no cluster filter. */
  function Open(t: Totals): nat {
    t.candidate + t.unknownExternal + t.dynamic + t.blocked + t.unresolved
  }

  /** One more reference in scope. */
  function CountedInScope(l: Lookups, r: Reference, t: Totals): Totals {
    Counted(l, r.id, t.(references := t.references + 1))
  }

  lemma CountedBalance(l: Lookups, r: Reference, t: Totals)
    requires Balanced(t)
    ensures var u := CountedInScope(l, r, t);
            var c := CategoryOf(l, r.id);
            && Balanced(u) && u.references == t.references + 1
            && Open(u) == Open(t) + (if Settled(c) then 0 else 1)
            && u.unresolved == t.unresolved + (if c == Unresolved then 1 else 0)
  {
  }

  lemma CountedOnce(l: Lookups, r: Reference, t: Totals, k: Category)
    ensures TotalOf(CountedInScope(l, r, t), k) == TotalOf(t, k) + if k == CategoryOf(l, r.id) then 1 else 0
  {
  }

  lemma TotalsStep(l: Lookups, o: Options, refs: seq<Reference>, r: Reference, t: Totals)
    requires TotalsHold(l, o, refs, t)
    ensures TotalsHold(l, o, refs + [r], if o.scope(r.source) then CountedInScope(l, r, t) else t)
  {
    var u := if o.scope(r.source) then CountedInScope(l, r, t) else t;
    CountedBalance(l, r, t);
    forall c
      ensures TotalOf(u, c) == |Scoped(l, o, refs + [r], c)|
    {
      SelectSnoc(l, o, refs, r, OfCategory(c));
      CountedOnce(l, r, t, c);
    }
    SelectSnoc(l, o, refs, r, InScope);
  }

  /** Without a filter, clusters and zones account for every open and every unresolved reference. */
  ghost predicate SumsHold(a: Audit) {
    && SumOf(ClusterCounts(a.clusters)) == Open(a.totals)
    && SumOf(ZoneCounts(a.zones)) == a.totals.unresolved
  }

  /** The audit of exactly these references. */
  ghost predicate AuditHolds(l: Lookups, o: Options, refs: seq<Reference>, a: Audit) {
    && TotalsHold(l, o, refs, a.totals)
    && ClustersHold(l, o, refs, a.clusters) && ZonesHold(l, o, refs, a.zones)
    && (o.cluster.None? ==> SumsHold(a))
  }

  /** The audit with one more reference. */
  function Audited(l: Lookups, o: Options, r: Reference, a: Audit): Audit {
    Audit(if o.scope(r.source) then CountedInScope(l, r, a.totals) else a.totals,
          if Gathered(l, o, r) then Gather(a.clusters, PatternOf(l, r), r, o) else a.clusters,
          if InZone(l, o, r, o.zone(r.source)) then ZonesWith(l, o, r, a.zones) else a.zones)
  }

  lemma SumsStep(l: Lookups, o: Options, r: Reference, a: Audit)
    requires o.cluster.None? && SumsHold(a) && Balanced(a.totals)
    ensures SumsHold(Audited(l, o, r, a))
  {
    CountedBalance(l, r, a.totals);
    GatherCounts(a.clusters, PatternOf(l, r), r, o);
    GatherZoneCounts(a.zones, o.zone(r.source), o.caption(PatternOf(l, r)));
  }

  lemma AuditStep(l: Lookups, o: Options, refs: seq<Reference>, r: Reference, a: Audit)
    requires AuditHolds(l, o, refs, a)
    ensures AuditHolds(l, o, refs + [r], Audited(l, o, r, a))
  {
    TotalsStep(l, o, refs, r, a.totals);
    ClustersStep(l, o, refs, r, a.clusters);
    ZonesStep(l, o, refs, r, a.zones);
    if o.cluster.None? {
      SumsStep(l, o, r, a);
    }
  }

  /** The body of the loop of `resolution_audit`. */
  method AuditReference(l: Lookups, o: Options, r: Reference, a: Audit) returns (b: Audit)
    ensures b == Audited(l, o, r, a)
  {
    if !o.scope(r.source) {
      return a;
    }
    var totals, classification :=
      ClassifyReference(l, r, a.totals.(references := a.totals.references + 1));
    b := a.(totals := totals);
    if classification.Some? {
      var c := classification.value;
      var pattern := Pattern(c.status, c.reason, c.evidence, r.detail);
      if o.cluster.None? || o.cluster.value == o.id(pattern) {
        b := b.(clusters := Gather(a.clusters, pattern, r, o));
        if c.status == Unresolved {
          b := b.(zones := GatherZone(a.zones, o.zone(r.source), o.caption(pattern)));
        }
      }
    }
  }

  lemma SumOfNothing<K>(m: map<K, nat>)
    requires m.Keys == {}
    ensures SumOf(m) == 0
  {
  }

  lemma NothingCounted(l: Lookups, o: Options, refs: seq<Reference>, t: Totals)
    requires refs == [] && t == NO_TOTALS
    ensures TotalsHold(l, o, refs, t)
  {
  }

  lemma NothingGathered(l: Lookups, o: Options, refs: seq<Reference>, a: Audit)
    requires refs == [] && a.clusters.Keys == {} && a.zones.Keys == {}
    ensures ClustersHold(l, o, refs, a.clusters) && ZonesHold(l, o, refs, a.zones)
  {
  }

  lemma NothingSummed(a: Audit)
    requires a.clusters.Keys == {} && a.zones.Keys == {} && a.totals == NO_TOTALS
    ensures SumsHold(a)
  {
    SumOfNothing(ClusterCounts(a.clusters));
    SumOfNothing(ZoneCounts(a.zones));
  }

  /** The derived totals, filled in at the end. */
  function Summarized(t: Totals): Totals {
    t.(resolved := t.unique,
       explained := t.unique + t.candidate + t.sdk + t.dependency + t.injected + t.dynamic + t.blocked,
       weakOrUnexplained := t.candidate + t.unknownExternal + t.unresolved)
  }

  const EMPTY_AUDIT := Audit(NO_TOTALS, map[], map[])

  /** The references audited one after the other. */
  function AuditAll(l: Lookups, o: Options, refs: seq<Reference>): Audit {
    if refs == [] then EMPTY_AUDIT
    else Audited(l, o, refs[|refs| - 1], AuditAll(l, o, refs[..|refs| - 1]))
  }

  lemma NothingAudited(l: Lookups, o: Options, refs: seq<Reference>, a: Audit)
    requires refs == [] && a == EMPTY_AUDIT
    ensures AuditHolds(l, o, refs, a)
  {
    NothingCounted(l, o, refs, a.totals);
    NothingGathered(l, o, refs, a);
    NothingSummed(a);
  }

  lemma {:induction false} AuditAllHolds(l: Lookups, o: Options, refs: seq<Reference>)
    ensures AuditHolds(l, o, refs, AuditAll(l, o, refs))
  {
    if refs == [] {
      NothingAudited(l, o, refs, AuditAll(l, o, refs));
    } else {
      var front, last := refs[..|refs| - 1], refs[|refs| - 1];
      AuditAllHolds(l, o, front);
      AuditStep(l, o, front, last, AuditAll(l, o, front));
      assert front + [last] == refs;
    }
  }

  lemma SummaryHolds(l: Lookups, o: Options, refs: seq<Reference>, a: Audit)
    requires AuditHolds(l, o, refs, a)
    ensures AuditHolds(l, o, refs, a.(totals := Summarized(a.totals)))
  {
    assert forall c :: TotalOf(Summarized(a.totals), c) == TotalOf(a.totals, c);
  }

  /** The loop of `resolution_audit` and its derived totals. */
  method RunAudit(l: Lookups, refs: seq<Reference>, o: Options) returns (audit: Audit)
    ensures AuditHolds(l, o, refs, audit) && CountsDecisions(l, o, refs, audit.totals)
    ensures var t := audit.totals;
            && t.references == t.explained + t.unknownExternal + t.unresolved
            && t.weakOrUnexplained == t.candidate + t.unknownExternal + t.unresolved
            && t.resolved == t.unique
  {
    audit := EMPTY_AUDIT;
    for i := 0 to |refs|
      invariant audit == AuditAll(l, o, refs[..i])
    {
      assert refs[..i + 1][..i] == refs[..i];
      audit := AuditReference(l, o, refs[i], audit);
    }
    assert refs[..|refs|] == refs;
    AuditAllHolds(l, o, refs);
    TotalsCountDecisions(l, o, refs);
    SummaryHolds(l, o, refs, audit);
    audit := audit.(totals := Summarized(audit.totals));
  }

  // ---- the totals, from the decisions alone -----------------------------------------------------------------------------

  /** The references in scope about which `d` is decided. */
  function CountOf(l: Lookups, o: Options, refs: seq<Reference>, d: Decision): nat {
    if refs == [] then 0
    else
      var last := refs[|refs| - 1];
      CountOf(l, o, refs[..|refs| - 1], d) + if o.scope(last.source) && Decided(l, last.id, d) then 1 else 0
  }

  /** Every total counts the references in scope about which its decision was made. */
  ghost predicate CountsDecisions(l: Lookups, o: Options, refs: seq<Reference>, t: Totals) {
    && t.references == CountOf(l, o, refs, InScopeAtAll)
    && t.unique == CountOf(l, o, refs, BoundByIdentity)
    && t.candidate == CountOf(l, o, refs, BoundByName) + CountOf(l, o, refs, HasCandidate)
    && t.nameMatchCandidate == CountOf(l, o, refs, WeaklyMatched)
    && t.sdk == CountOf(l, o, refs, External(Sdk)) && t.dependency == CountOf(l, o, refs, External(Dependency))
    && t.injected == CountOf(l, o, refs, External(Injected))
    && t.unknownExternal == CountOf(l, o, refs, External(UnknownExternal))
    && t.dynamic == CountOf(l, o, refs, AtRuntime) && t.blocked == CountOf(l, o, refs, ByPolicy)
    && t.unresolved == CountOf(l, o, refs, Dangling) + CountOf(l, o, refs, Undecided)
  }

  function One(b: bool): nat {
    if b then 1 else 0
  }

  lemma CountedByDecision(l: Lookups, r: Reference, t: Totals, u: Totals)
    requires u == CountedInScope(l, r, t)
    ensures u.references == t.references + 1
    ensures u.unique == t.unique + One(Decided(l, r.id, BoundByIdentity))
    ensures u.candidate == t.candidate + One(Decided(l, r.id, BoundByName)) + One(Decided(l, r.id, HasCandidate))
    ensures u.nameMatchCandidate == t.nameMatchCandidate + One(Decided(l, r.id, WeaklyMatched))
    ensures u.sdk == t.sdk + One(Decided(l, r.id, External(Sdk)))
    ensures u.dependency == t.dependency + One(Decided(l, r.id, External(Dependency)))
    ensures u.injected == t.injected + One(Decided(l, r.id, External(Injected)))
    ensures u.unknownExternal == t.unknownExternal + One(Decided(l, r.id, External(UnknownExternal)))
    ensures u.dynamic == t.dynamic + One(Decided(l, r.id, AtRuntime))
    ensures u.blocked == t.blocked + One(Decided(l, r.id, ByPolicy))
    ensures u.unresolved == t.unresolved + One(Decided(l, r.id, Dangling)) + One(Decided(l, r.id, Undecided))
  {
  }

  lemma CountSnoc(l: Lookups, o: Options, refs: seq<Reference>, r: Reference, d: Decision)
    ensures CountOf(l, o, refs + [r], d) == CountOf(l, o, refs, d) + One(o.scope(r.source) && Decided(l, r.id, d))
  {
    assert (refs + [r])[..|refs|] == refs;
  }

  lemma CountStep(l: Lookups, o: Options, refs: seq<Reference>, r: Reference, t: Totals)
    requires CountsDecisions(l, o, refs, t)
    ensures CountsDecisions(l, o, refs + [r], if o.scope(r.source) then CountedInScope(l, r, t) else t)
  {
    CountedByDecision(l, r, t, CountedInScope(l, r, t));
    forall d
      ensures CountOf(l, o, refs + [r], d) == CountOf(l, o, refs, d) + One(o.scope(r.source) && Decided(l, r.id, d))
    {
      CountSnoc(l, o, refs, r, d);
    }
  }

  lemma NothingDecided(l: Lookups, o: Options, refs: seq<Reference>, t: Totals)
    requires refs == [] && t == NO_TOTALS
    ensures CountsDecisions(l, o, refs, t)
  {
  }

  /** The totals of an audit are what the decisions say, category by category. */
  lemma {:induction false} TotalsCountDecisions(l: Lookups, o: Options, refs: seq<Reference>)
    ensures CountsDecisions(l, o, refs, AuditAll(l, o, refs).totals)
  {
    if refs == [] {
      NothingDecided(l, o, refs, AuditAll(l, o, refs).totals);
    } else {
      var front, last := refs[..|refs| - 1], refs[|refs| - 1];
      TotalsCountDecisions(l, o, front);
      CountStep(l, o, front, last, AuditAll(l, o, front).totals);
      assert front + [last] == refs;
    }
  }

  lemma GatheredByDecision(l: Lookups, r: Reference)
    ensures Settled(CategoryOf(l, r.id)) <==> NeedsNoLook(l, r.id)
    ensures !NeedsNoLook(l, r.id) ==> Explains(l, r.id, ClassificationOf(l, r.id))
  {
  }

  /**
    The members of a cluster are references in scope that still need a look, and the cluster's
    status, reason and evidence are those of the decision about each of them.
  */
  lemma {:induction false} ClusterIsDecisions(l: Lookups, o: Options, refs: seq<Reference>, p: Pattern, r: Reference)
    requires r in Members(l, o, refs, p)
    ensures r in refs && o.scope(r.source) && !NeedsNoLook(l, r.id)
    ensures Explains(l, r.id, Classification(p.status, p.reason, p.evidence)) && p.detail == r.detail
  {
    var last := refs[|refs| - 1];
    if r in Members(l, o, refs[..|refs| - 1], p) {
      ClusterIsDecisions(l, o, refs[..|refs| - 1], p, r);
    } else {
      GatheredByDecision(l, r);
    }
  }

  /** The members of a zone are the references in scope with that zone that nothing was decided about. */
  lemma {:induction false} ZoneIsDecisions(l: Lookups, o: Options, refs: seq<Reference>, z: string, r: Reference)
    requires r in ZoneMembers(l, o, refs, z)
    ensures r in refs && o.scope(r.source) && o.zone(r.source) == z
    ensures Decided(l, r.id, Dangling) || Decided(l, r.id, Undecided)
  {
    if r in ZoneMembers(l, o, refs[..|refs| - 1], z) {
      ZoneIsDecisions(l, o, refs[..|refs| - 1], z, r);
    }
  }

  /** A cluster filter leaves the cluster it names as it is, and no other. */
  lemma {:induction false} FilterKeepsOneCluster(l: Lookups, o: Options, refs: seq<Reference>, p: Pattern)
    ensures Members(l, o, refs, p) ==
            if o.cluster.None? || o.id(p) == o.cluster.value then Members(l, o.(cluster := None), refs, p) else []
  {
    if refs != [] {
      FilterKeepsOneCluster(l, o, refs[..|refs| - 1], p);
    }
  }

  // ---- the report -------------------------------------------------------------------------------------------------------

  datatype ReportedCluster = ReportedCluster(id: string, pattern: Pattern, count: nat, samples: seq<Reference>)
  datatype ReportedZone = ReportedZone(zone: string, unresolved: nat, dominant: string)
  datatype Report = Report(totals: Totals, clusters: seq<ReportedCluster>, zones: seq<ReportedZone>)

  function PatternsOf(clusters: seq<ReportedCluster>): (ps: seq<Pattern>)
    ensures |ps| == |clusters|
  {
    seq(|clusters|, i requires 0 <= i < |clusters| => clusters[i].pattern)
  }

  function NamesOf(zones: seq<ReportedZone>): (zs: seq<string>)
    ensures |zs| == |zones|
  {
    seq(|zones|, i requires 0 <= i < |zones| => zones[i].zone)
  }

  /** A reported cluster is its pattern's members, counted and sampled. */
  ghost predicate ClusterReported(l: Lookups, o: Options, refs: seq<Reference>, c: ReportedCluster) {
    var members := Members(l, o, refs, c.pattern);
    c == ReportedCluster(o.id(c.pattern), c.pattern, |members|, Window(members, o.sampleOffset, o.sampleLimit))
  }

  /** A reported zone counts its members, and no caption is more frequent among them than the dominant one. */
  ghost predicate ZoneReported(l: Lookups, o: Options, refs: seq<Reference>, z: ReportedZone) {
    && z.unresolved == |ZoneMembers(l, o, refs, z.zone)|
    && Select(l, o, refs, OfLabel(z.zone, z.dominant)) != []
    && forall caption ::
         |Select(l, o, refs, OfLabel(z.zone, caption))| <= |Select(l, o, refs, OfLabel(z.zone, z.dominant))|
  }

  /** The largest clusters and zones of an audit, largest first. */
  ghost predicate Reported(l: Lookups, o: Options, refs: seq<Reference>, a: Audit, r: Report) {
    && r.totals == a.totals
    && Top(ClusterCounts(a.clusters), o.clusterLimit, PatternsOf(r.clusters))
    && Top(ZoneCounts(a.zones), o.zoneLimit, NamesOf(r.zones))
    && (forall i | 0 <= i < |r.clusters| :: ClusterReported(l, o, refs, r.clusters[i]))
    && (forall i | 0 <= i < |r.zones| :: ZoneReported(l, o, refs, r.zones[i]))
  }

  /** The most frequent label of a zone is its most frequent caption. */
  lemma DominantCaption(l: Lookups, o: Options, refs: seq<Reference>, zones: map<string, Zone>, z: string, best: string)
    requires ZonesHold(l, o, refs, zones) && z in zones && best in zones[z].labels
    requires forall k | k in zones[z].labels :: zones[z].labels[k] <= zones[z].labels[best]
    ensures ZoneReported(l, o, refs, ReportedZone(z, zones[z].unresolved, best))
  {
    assert ZoneHolds(l, o, refs, zones, z) && LabelHolds(l, o, refs, zones, z, best);
    forall caption
      ensures |Select(l, o, refs, OfLabel(z, caption))| <= |Select(l, o, refs, OfLabel(z, best))|
    {
      assert LabelHolds(l, o, refs, zones, z, caption);
    }
  }

  lemma ZoneHasLabel(l: Lookups, o: Options, refs: seq<Reference>, zones: map<string, Zone>, z: string)
    requires ZoneHolds(l, o, refs, zones, z) && z in zones
    ensures zones[z].labels != map[]
  {
  }

  method ReportClusters(l: Lookups, o: Options, ghost refs: seq<Reference>, clusters: map<Pattern, Cluster>)
    returns (reported: seq<ReportedCluster>)
    requires ClustersHold(l, o, refs, clusters)
    ensures Top(ClusterCounts(clusters), o.clusterLimit, PatternsOf(reported))
    ensures forall i | 0 <= i < |reported| :: ClusterReported(l, o, refs, reported[i])
  {
    var order := Rank(ClusterCounts(clusters), o.clusterLimit);
    reported := [];
    for i := 0 to |order|
      invariant |reported| == i && forall j | 0 <= j < i :: reported[j].pattern == order[j]
      invariant forall j | 0 <= j < i :: ClusterReported(l, o, refs, reported[j])
    {
      var p := order[i];
      assert p in ClusterCounts(clusters) && ClusterHolds(l, o, refs, clusters, p);
      reported := reported + [ReportedCluster(o.id(p), p, clusters[p].count, clusters[p].samples)];
    }
    assert PatternsOf(reported) == order;
  }

  method ReportZones(l: Lookups, o: Options, ghost refs: seq<Reference>, zones: map<string, Zone>)
    returns (reported: seq<ReportedZone>)
    requires ZonesHold(l, o, refs, zones)
    ensures Top(ZoneCounts(zones), o.zoneLimit, NamesOf(reported))
    ensures forall i | 0 <= i < |reported| :: ZoneReported(l, o, refs, reported[i])
  {
    var order := Rank(ZoneCounts(zones), o.zoneLimit);
    reported := [];
    for i := 0 to |order|
      invariant |reported| == i && forall j | 0 <= j < i :: reported[j].zone == order[j]
      invariant forall j | 0 <= j < i :: ZoneReported(l, o, refs, reported[j])
    {
      var z := order[i];
      assert z in ZoneCounts(zones) && ZoneHolds(l, o, refs, zones, z);
      ZoneHasLabel(l, o, refs, zones, z);
      var best := MostFrequent(zones[z].labels);
      DominantCaption(l, o, refs, zones, z, best);
      reported := reported + [ReportedZone(z, zones[z].unresolved, best)];
    }
    assert NamesOf(reported) == order;
  }

  /** `resolution_audit`, with the audit it reports on. */
  method AuditReport(l: Lookups, refs: seq<Reference>, o: Options) returns (report: Report, ghost audit: Audit)
    ensures AuditHolds(l, o, refs, audit) && Reported(l, o, refs, audit, report)
    ensures CountsDecisions(l, o, refs, report.totals)
    ensures var t := report.totals;
            t.references == t.explained + t.unknownExternal + t.unresolved
  {
    var gathered := RunAudit(l, refs, o);
    var clusters := ReportClusters(l, o, refs, gathered.clusters);
    var zones := ReportZones(l, o, refs, gathered.zones);
    return Report(gathered.totals, clusters, zones), gathered;
  }

  // ---- paging through samples -----------------------------------------------------------------------------------------

  /** The same audit with another window of samples. */
  function WindowAt(o: Options, at: nat): Options {
    o.(sampleOffset := at)
  }

  function SamplesIn(clusters: map<Pattern, Cluster>, p: Pattern): seq<Reference> {
    if p in clusters then clusters[p].samples else []
  }

  /** The samples of one cluster in an audit. */
  function SamplesOf(l: Lookups, o: Options, refs: seq<Reference>, p: Pattern): seq<Reference> {
    SamplesIn(AuditAll(l, o, refs).clusters, p)
  }

  /** What `n` requests for consecutive windows of `limit` samples collect, from position `at` on. */
  function Paged(window: nat -> seq<Reference>, at: nat, limit: nat, n: nat): seq<Reference>
    decreases n
  {
    if n == 0 then [] else window(at) + Paged(window, at + limit, limit, n - 1)
  }

  /** One audit for each window. */
  function Sampler(l: Lookups, o: Options, refs: seq<Reference>, p: Pattern): nat -> seq<Reference> {
    (at: nat) => SamplesOf(l, WindowAt(o, at), refs, p)
  }

  /** The samples of one cluster over the first `n` windows, each from an audit of its own. */
  function PagedSamples(l: Lookups, o: Options, refs: seq<Reference>, p: Pattern, n: nat): seq<Reference> {
    Paged(Sampler(l, o, refs, p), 0, o.sampleLimit, n)
  }

  /** Which references form a cluster does not depend on the window. */
  lemma {:induction false} MembersOfWindow(l: Lookups, o: Options, refs: seq<Reference>, p: Pattern, at: nat)
    ensures Members(l, WindowAt(o, at), refs, p) == Members(l, o, refs, p)
  {
    if refs != [] {
      MembersOfWindow(l, o, refs[..|refs| - 1], p, at);
    }
  }

  lemma SamplesAreWindow(l: Lookups, o: Options, refs: seq<Reference>, clusters: map<Pattern, Cluster>, p: Pattern)
    requires ClusterHolds(l, o, refs, clusters, p)
    ensures SamplesIn(clusters, p) == Window(Members(l, o, refs, p), o.sampleOffset, o.sampleLimit)
  {
  }

  lemma {:induction false} SamplesOfWindow(l: Lookups, o: Options, refs: seq<Reference>, p: Pattern, at: nat)
    ensures SamplesOf(l, WindowAt(o, at), refs, p) == Window(Members(l, o, refs, p), at, o.sampleLimit)
  {
    var window := WindowAt(o, at);
    AuditAllHolds(l, window, refs);
    SamplesAreWindow(l, window, refs, AuditAll(l, window, refs).clusters, p);
    MembersOfWindow(l, o, refs, p, at);
  }

  /** What lies between two positions, as far as there are members. */
  function Between(members: seq<Reference>, from: nat, to: nat): seq<Reference>
    requires from <= to
  {
    members[Min(from, |members|)..Min(to, |members|)]
  }

  lemma WindowThenRest(members: seq<Reference>, at: nat, limit: nat, to: nat, first: seq<Reference>, rest: seq<Reference>)
    requires at + limit <= to && first == Window(members, at, limit) && rest == Between(members, at + limit, to)
    ensures first + rest == Between(members, at, to)
  {
  }

  /** Where `n` windows end. */
  function Reach(at: nat, limit: nat, n: nat): (to: nat)
    ensures at <= to
    decreases n
  {
    if n == 0 then at else Reach(at + limit, limit, n - 1)
  }

  lemma {:induction false} ReachIsProduct(at: nat, limit: nat, n: nat)
    ensures Reach(at, limit, n) == at + n * limit
    decreases n
  {
    if n > 0 {
      ReachIsProduct(at + limit, limit, n - 1);
      assert n * limit == (n - 1) * limit + limit;
    }
  }

  lemma {:induction false} PagedIsBetween(members: seq<Reference>, window: nat -> seq<Reference>,
                                          at: nat, limit: nat, n: nat)
    requires forall k: nat :: window(k) == Window(members, k, limit)
    ensures Paged(window, at, limit, n) == Between(members, at, Reach(at, limit, n))
    decreases n
  {
    if n > 0 {
      var to := Reach(at + limit, limit, n - 1);
      PagedIsBetween(members, window, at + limit, limit, n - 1);
      WindowThenRest(members, at, limit, to, window(at), Paged(window, at + limit, limit, n - 1));
    }
  }

  /**
    Repeating the audit with consecutive windows yields a cluster's members, in order and without
    repetition, as far as the pages reach.
  */
  lemma {:induction false} PagesYieldMembers(l: Lookups, o: Options, refs: seq<Reference>, p: Pattern, n: nat)
    ensures var members := Members(l, o, refs, p);
            PagedSamples(l, o, refs, p, n) == members[..Min(n * o.sampleLimit, |members|)]
  {
    var members, window := Members(l, o, refs, p), Sampler(l, o, refs, p);
    forall at: nat
      ensures window(at) == Window(members, at, o.sampleLimit)
    {
      SamplesOfWindow(l, o, refs, p, at);
    }
    PagedIsBetween(members, window, 0, o.sampleLimit, n);
    ReachIsProduct(0, o.sampleLimit, n);
  }
}
