/**
  From fields to a request, and the check a request goes through when it does not come from text
  (crates/query/src/lib.rs): alias renaming, field validation, defaults, bounds, and paging.
*/
module QueryRequest {
  import opened Numbers
  import opened Results
  import opened Whitespace
  import opened QueryText
  import Decimal

  // ---- capabilities ----------------------------------------------------------------------------------

  /** The verbs of the language, `query.describe` to `notes`. */
  datatype Verb =
    | QueryDescribe | WorkspaceStatus | TreeChildren | SymbolSearch | SymbolInsights | SymbolDetail
    | SyntaxTree | SyntaxParse | SymbolUsages | ViewRead | RulesList | RulesCheck
    | RulesApplicable | ChangeReview | ChangeContext | SymbolGraph | GraphPath | GraphCorridor
    | IdentityChildren | IdentityGraph | MetricsCoupling | ResolutionAudit | Notes

  /** Field names, recognized; anything else is `Unknown`. */
  datatype Field =
    | VerbField | WorkspaceField | PathField | DepthField | LangField | KindField
    | ShapeField | NameField | IncludeNonNavigableField | IncludeCodeField | ContextLinesField | UriField
    | FocusField | MaxDepthField | MaxNodesField | NamedOnlyField | IncludeTextField | MaxTextCharsField
    | LanguageField | SourceField | DirectionField | IncludeDescendantsField | SchemeField | ProfileField
    | RulesField | SeverityField | InlineRulesField | FileField | ReportField | MaxItemsField
    | RelationField | MinCountField | IncludeInternalField | FromField | ToField | ExpectField
    | MaxSymbolsField | MaxEdgesField | MinCoverageField | SrcsetField | PrefixField | SnapshotField
    | ExportField | ClusterField | ActionField | IdField | MonikerField | StatusField
    | TitleField | BodyField | CreatedByField | OrphanField | IncludeDoneField | LimitField
    | CursorField | ConsistencyField
    | Unknown(text: string)

  /** The fields a capability declares. */
  function DeclaredFields(verb: Verb): set<Field> {
    match verb
    case QueryDescribe => {VerbField}
    case WorkspaceStatus => {}
    case TreeChildren => {WorkspaceField, PathField, DepthField, LangField}
    case SymbolSearch =>
      {WorkspaceField, PathField, LangField, KindField, ShapeField, NameField, IncludeNonNavigableField,
       IncludeCodeField, ContextLinesField}
    case SymbolInsights =>
      {WorkspaceField, PathField, LangField, KindField, ShapeField, NameField, IncludeNonNavigableField}
    case SymbolDetail => {WorkspaceField, UriField, ContextLinesField}
    case SyntaxTree =>
      {WorkspaceField, FocusField, MaxDepthField, MaxNodesField, NamedOnlyField, IncludeTextField,
       MaxTextCharsField}
    case SyntaxParse =>
      {LanguageField, SourceField, UriField, MaxDepthField, MaxNodesField, NamedOnlyField, IncludeTextField,
       MaxTextCharsField}
    case SymbolUsages => {WorkspaceField, UriField, DirectionField, PathField, LangField, IncludeDescendantsField}
    case ViewRead => {UriField, SchemeField, ContextLinesField, IncludeCodeField}
    case RulesList => {WorkspaceField, ProfileField, RulesField, LangField, SeverityField}
    case RulesCheck => {WorkspaceField, ProfileField, RulesField, InlineRulesField, FileField, ReportField}
    case RulesApplicable => {WorkspaceField, FocusField, ProfileField, RulesField}
    case ChangeReview => {WorkspaceField}
    case ChangeContext => {WorkspaceField, FocusField, ProfileField, MaxItemsField}
    case SymbolGraph =>
      {WorkspaceField, FocusField, DirectionField, RelationField, MinCountField, IncludeInternalField}
    case GraphPath =>
      {WorkspaceField, FromField, ToField, ExpectField, RelationField, MaxDepthField, MaxSymbolsField,
       MaxEdgesField, MinCoverageField}
    case GraphCorridor =>
      {WorkspaceField, FromField, ToField, PathField, LangField, KindField, ShapeField, SrcsetField, RelationField,
       MaxDepthField, MaxSymbolsField, MaxEdgesField, MinCoverageField}
    case IdentityChildren => {WorkspaceField, PrefixField}
    case IdentityGraph => {WorkspaceField, PrefixField, PathField, MinCountField}
    case MetricsCoupling => {WorkspaceField, FromField, ToField, RelationField, SnapshotField, ExportField}
    case ResolutionAudit => {WorkspaceField, PrefixField, ClusterField}
    case Notes =>
      {ActionField, IdField, MonikerField, KindField, StatusField, TitleField, BodyField, CreatedByField,
       OrphanField, IncludeDoneField}
  }

  /** The fields it cannot do without. */
  function RequiredFields(verb: Verb): seq<Field> {
    if verb in {SymbolDetail, SymbolUsages, ViewRead} then [UriField]
    else if verb in {SyntaxTree, RulesApplicable, ChangeContext, SymbolGraph} then [FocusField]
    else if verb == SyntaxParse then [LanguageField, SourceField]
    else if verb in {GraphPath, MetricsCoupling} then [FromField, ToField]
    else if verb == GraphCorridor then [FromField, ToField, RelationField]
    else []
  }

  /** Whether it takes one positional argument; no capability takes more. */
  predicate TakesPositional(verb: Verb) {
    verb in {QueryDescribe, SymbolSearch, SymbolDetail, SyntaxTree, SymbolUsages, ViewRead, RulesApplicable,
             ChangeContext, SymbolGraph, IdentityChildren, IdentityGraph, ResolutionAudit}
  }

  /** Whether the columns of its result can be chosen. */
  predicate TakesProjection(verb: Verb) {
    verb in {TreeChildren, SymbolSearch, SymbolInsights, SymbolUsages}
  }

  /** Whether its result comes in pages. */
  predicate Paginated(verb: Verb) {
    verb in {TreeChildren, SymbolSearch, SymbolUsages, RulesList, RulesCheck, RulesApplicable, IdentityGraph,
             ResolutionAudit, Notes}
  }

  /** A required field is declared, and a positional argument stands for the first required field. */
  lemma CapabilitiesAreCoherent(verb: Verb)
    ensures forall i | 0 <= i < |RequiredFields(verb)| :: RequiredFields(verb)[i] in DeclaredFields(verb)
    ensures PositionalField(verb).Some? ==> TakesPositional(verb) && PositionalField(verb).value in DeclaredFields(verb)
    ensures PositionalField(verb).Some? && RequiredFields(verb) != [] ==> RequiredFields(verb)[0] == PositionalField(verb).value
    ensures PositionalField(verb).None? && TakesPositional(verb) <==> verb == SymbolSearch
  {
  }

  predicate BoundedResult(verb: Verb) {
    verb == SymbolGraph || verb == IdentityChildren
  }

  /** `MULTI_VALUE_FIELDS`. */
  predicate MultiValue(field: Field) {
    field in {PathField, LangField, KindField, ShapeField, SrcsetField, SeverityField, FileField, RelationField}
  }

  // ---- fields --------------------------------------------------------------------------------------------

  type Values = seq<(Field, string)>
  datatype Bag = Bag(values: Values, positional: seq<string>, projection: seq<string>)

  /** The key a field goes by for this capability. */
  function Alias(verb: Verb, field: Field): Field {
    if field == MaxItemsField && (LimitField in DeclaredFields(verb) || BoundedResult(verb)) then LimitField
    else if field == LimitField && MaxItemsField in DeclaredFields(verb) then MaxItemsField
    else field
  }

  function Renamed(verb: Verb, values: Values): (r: Values)
    ensures |r| == |values|
  {
    seq(|values|, i requires 0 <= i < |values| => (Alias(verb, values[i].0), values[i].1))
  }

  /** `normalize_field_aliases`: every key in place. */
  method NormalizeFieldAliases(verb: Verb, values: array<(Field, string)>)
    modifies values
    ensures values[..] == Renamed(verb, old(values[..]))
  {
    ghost var renamed := Renamed(verb, values[..]);
    for i := 0 to values.Length
      invariant forall j | 0 <= j < i :: values[j] == renamed[j]
      invariant forall j | i <= j < values.Length :: values[j] == old(values[j])
    {
      values[i] := (Alias(verb, values[i].0), values[i].1);
    }
  }

  function One(values: Values, key: Field): Option<string> {
    if values == [] then None
    else if values[0].0 == key then Some(ScalarValue(values[0].1))
    else One(values[1..], key)
  }

  lemma {:induction false} OneIffGiven(values: Values, key: Field)
    ensures One(values, key).Some? <==> exists i | 0 <= i < |values| :: values[i].0 == key
  {
    if values != [] && values[0].0 != key {
      OneIffGiven(values[1..], key);
      assert forall i | 1 <= i < |values| :: values[i] == values[1..][i - 1];
    }
  }

  function Many(values: Values, key: Field): seq<string> {
    if values == [] then []
    else (if values[0].0 == key then (if MultiValue(key) then ListValues(values[0].1) else [ScalarValue(values[0].1)]) else []) + Many(values[1..], key)
  }

  const USIZE_BOUND := U64

  /** `usize` of a field: absent, a number, or an error. */
  function Number(values: Values, key: Field, default: nat): Option<nat> {
    var text := One(values, key);
    if text.None? then Some(default) else Decimal.Parse(text.value, USIZE_BOUND)
  }

  predicate FieldAllowed(verb: Verb, field: Field) {
    || field in DeclaredFields(verb)
    || field == ConsistencyField
    || (Paginated(verb) && (field == LimitField || field == CursorField))
    || (BoundedResult(verb) && field == LimitField)
  }

  /** A field is neither unknown, nor malformed, nor repeated later with another value. */
  predicate ValueAccepted(verb: Verb, values: Values, i: nat)
    requires i < |values|
  {
    var (field, text) := values[i];
    && FieldAllowed(verb, field)
    && (if MultiValue(field) then (text != "" && text[0] == '[') == (text != "" && text[|text| - 1] == ']')
        else forall j | i < j < |values| :: values[j].0 == field ==> ScalarValue(values[j].1) == ScalarValue(text))
  }

  predicate ValuesAccepted(verb: Verb, values: Values) {
    forall i | 0 <= i < |values| :: ValueAccepted(verb, values, i)
  }

  function PositionalField(verb: Verb): Option<Field> {
    match verb
    case QueryDescribe => Some(VerbField)
    case SymbolDetail => Some(UriField)
    case SymbolUsages => Some(UriField)
    case ViewRead => Some(UriField)
    case SyntaxTree => Some(FocusField)
    case RulesApplicable => Some(FocusField)
    case ChangeContext => Some(FocusField)
    case SymbolGraph => Some(FocusField)
    case IdentityChildren => Some(PrefixField)
    case IdentityGraph => Some(PrefixField)
    case ResolutionAudit => Some(PrefixField)
    case _ => None
  }

  /** `validate_fields`, but for the known names of projected columns. */
  predicate FieldsAccepted(verb: Verb, bag: Bag) {
    var required, positionals := RequiredFields(verb), if TakesPositional(verb) then 1 else 0;
    && ValuesAccepted(verb, bag.values)
    && (var field := PositionalField(verb);
        field.Some? && bag.positional != [] && One(bag.values, field.value).Some? ==>
          One(bag.values, field.value).value == bag.positional[0])
    && (forall i | 0 <= i < |required| ::
          One(bag.values, required[i]).Some? || (i < positionals && i < |bag.positional|))
    && |bag.positional| <= positionals
    && (bag.projection != [] ==> TakesProjection(verb))
  }

  // ---- requests --------------------------------------------------------------------------------------------

  datatype Cursor = Cursor(offset: nat, generation: Option<nat>)
  datatype Page = Page(cursor: Option<Cursor>, limit: nat)
  const DEFAULT_PAGE := Page(None, 80)

  datatype GraphLimits = GraphLimits(depth: nat, symbols: nat, edges: nat, coverage: nat)
  datatype Scope = Scope(path: seq<string>, lang: seq<string>, kind: seq<string>, shape: seq<string>, srcset: seq<string>)

  /** The queries whose parts the validator looks at; `OtherQuery` stands for the rest. */
  datatype Query =
    | ChangeContextQuery(workspace: Option<string>, focus: string, profile: Option<string>, maxItems: nat)
    | SymbolGraphQuery(workspace: Option<string>, focus: string, direction: string, relation: seq<string>,
                       minCount: nat, includeInternal: bool, limit: nat)
    | IdentityChildrenQuery(workspace: Option<string>, prefix: string, limit: nat)
    | GraphPathQuery(workspace: Option<string>, from: string, to: string, expectation: string,
                     relation: seq<string>, limits: GraphLimits)
    | GraphCorridorQuery(workspace: Option<string>, from: string, to: string,
                         scope: Scope, relation: seq<string>, limits: GraphLimits)
    | OtherQuery(verb: Verb)

  datatype Request = Request(query: Query, consistency: string, page: Page)

  const MAX_BOUNDED_RESULT_ITEMS := 500
  const MAX_CHANGE_CONTEXT_ITEMS := 100

  predicate LimitsValid(limits: GraphLimits) {
    && limits.depth <= 64 && 1 <= limits.symbols <= 100_000 && 1 <= limits.edges <= 500_000
    && limits.coverage <= 100
  }

  predicate ValuesValid(values: seq<string>, maxValues: nat, maxChars: nat) {
    |values| <= maxValues && forall i | 0 <= i < |values| :: Trim(values[i]) != "" && |values[i]| <= maxChars
  }

  predicate RelationsValid(relations: seq<string>) {
    relations != [] && ValuesValid(relations, 16, 64)
  }

  predicate ScopeValid(scope: Scope) {
    && scope != Scope([], [], [], [], [])
    && ValuesValid(scope.path, 16, 256) && ValuesValid(scope.lang, 16, 256) && ValuesValid(scope.kind, 16, 256)
    && ValuesValid(scope.shape, 16, 256) && ValuesValid(scope.srcset, 16, 256)
  }

  /** `QueryRequest::validate`. */
  predicate RequestValid(r: Request) {
    match r.query
    case SymbolGraphQuery(_, _, _, _, _, _, limit) => 1 <= limit <= MAX_BOUNDED_RESULT_ITEMS
    case IdentityChildrenQuery(_, _, limit) => 1 <= limit <= MAX_BOUNDED_RESULT_ITEMS
    case ChangeContextQuery(_, _, _, n) => 1 <= n <= MAX_CHANGE_CONTEXT_ITEMS
    case GraphPathQuery(_, _, _, _, relation, limits) => LimitsValid(limits) && RelationsValid(relation)
    case GraphCorridorQuery(_, _, _, scope, relation, limits) =>
      && LimitsValid(limits) && RelationsValid(relation) && ScopeValid(scope)
      && r.page.cursor == None && r.page.limit == DEFAULT_PAGE.limit
    case OtherQuery(_) => true
  }

  /** `parse_cursor`: a generation and an offset; a bare offset is an error. */
  function ParseCursor(text: string): Option<Cursor> {
    var parts := SplitOnce(text, ':');
    if parts.None? then None
    else
      var generation := Decimal.Parse(parts.value.0, USIZE_BOUND);
      var offset := Decimal.Parse(parts.value.1, USIZE_BOUND);
      if generation.None? || offset.None? then None else Some(Cursor(offset.value, generation))
  }

  /** `FieldBag::page`. */
  function ParsePage(values: Values): Option<Page> {
    var limit := Number(values, LimitField, 80);
    var text := One(values, CursorField);
    if limit.None? then None
    else if text.None? then Some(Page(None, limit.value))
    else
      var cursor := ParseCursor(text.value);
      if cursor.None? then None else Some(Page(cursor, limit.value))
  }

  function ParseLimits(values: Values, symbols: nat, edges: nat): Option<GraphLimits> {
    var d, c := Number(values, MaxDepthField, 12), Number(values, MinCoverageField, 100);
    var s, e := Number(values, MaxSymbolsField, symbols), Number(values, MaxEdgesField, edges);
    if d.None? || c.None? || s.None? || e.None? then None
    else Some(GraphLimits(d.value, s.value, e.value, c.value))
  }

  /** Nothing given, or one of the words the language has. */
  predicate OneOf(given: Option<string>, words: seq<string>) {
    given.None? || given.value in words
  }

  predicate Accepts(values: Values, key: Field, words: seq<string>) {
    OneOf(One(values, key), words)
  }

  const CONSISTENCIES := ["current", "refresh-if-stale", "stale-ok"]
  const EXPECTATIONS := ["reachable", "no_path"]
  const DIRECTIONS := ["incoming", "outgoing", "both"]
  const BOOLEANS := ["true", "false"]

  /** A field, or the first positional argument in its place. */
  function OneOrFirst(bag: Bag, key: Field): Option<string> {
    if One(bag.values, key).Some? then One(bag.values, key)
    else if bag.positional != [] then Some(bag.positional[0]) else None
  }

  /** What the builders of graph queries read from the fields. */
  datatype GraphFields = GraphFields(
    workspace: Option<string>, from: Option<string>, to: Option<string>, expectation: Option<string>,
    relation: seq<string>, scope: Scope, limits: Option<GraphLimits>)

  function ReadScope(values: Values): Scope {
    Scope(Many(values, PathField), Many(values, LangField), Many(values, KindField),
          Many(values, ShapeField), Many(values, SrcsetField))
  }

  function ReadGraphFields(values: Values, symbols: nat, edges: nat): GraphFields {
    GraphFields(One(values, WorkspaceField), One(values, FromField), One(values, ToField), One(values, ExpectField),
                Many(values, RelationField), ReadScope(values), ParseLimits(values, symbols, edges))
  }

  /** `graph_path_query`. */
  function BuildGraphPath(f: GraphFields): Option<Query> {
    var relations := if f.relation == [] then ["calls", "method_call"] else f.relation;
    if f.limits.None? || f.from.None? || f.to.None? || !OneOf(f.expectation, EXPECTATIONS) then None
    else if !LimitsValid(f.limits.value) || !RelationsValid(relations) then None
    else Some(GraphPathQuery(f.workspace, f.from.value, f.to.value, f.expectation.GetOr("reachable"),
                             relations, f.limits.value))
  }

  /** `graph_corridor_query`. */
  function BuildGraphCorridor(f: GraphFields): Option<Query> {
    if f.limits.None? || f.from.None? || f.to.None? then None
    else if !LimitsValid(f.limits.value) || !RelationsValid(f.relation) || !ScopeValid(f.scope) then None
    else Some(GraphCorridorQuery(f.workspace, f.from.value, f.to.value, f.scope, f.relation, f.limits.value))
  }

  /** What the builders of bounded queries read: a subject, which may come first without a key, and a size. */
  datatype BoundedFields = BoundedFields(
    workspace: Option<string>, subject: Option<string>, direction: Option<string>, internal: Option<string>,
    profile: Option<string>, relation: seq<string>, count: Option<nat>, size: Option<nat>)

  function ReadBounded(bag: Bag, subject: Field, size: Field, default: nat): BoundedFields {
    var values := bag.values;
    BoundedFields(One(values, WorkspaceField), OneOrFirst(bag, subject), One(values, DirectionField),
                  One(values, IncludeInternalField), One(values, ProfileField), Many(values, RelationField),
                  Number(values, MinCountField, 1), Number(values, size, default))
  }

  /** `symbol_graph_query`. */
  function BuildSymbolGraph(f: BoundedFields): Option<Query> {
    if f.subject.None? || f.size.None? || f.count.None? || !(1 <= f.size.value <= MAX_BOUNDED_RESULT_ITEMS) then None
    else if !OneOf(f.internal, BOOLEANS) || !OneOf(f.direction, DIRECTIONS) then None
    else Some(SymbolGraphQuery(f.workspace, f.subject.value, f.direction.GetOr("both"), f.relation,
                               Max(f.count.value, 1), f.internal != Some("false"), f.size.value))
  }

  /** `identity_children_query`. */
  function BuildIdentityChildren(f: BoundedFields): Option<Query> {
    if f.size.None? || !(1 <= f.size.value <= MAX_BOUNDED_RESULT_ITEMS) then None
    else Some(IdentityChildrenQuery(f.workspace, f.subject.GetOr(""), f.size.value))
  }

  function BuildChangeContext(f: BoundedFields): Option<Query> {
    if f.subject.None? || f.size.None? || !(1 <= f.size.value <= MAX_CHANGE_CONTEXT_ITEMS) then None
    else Some(ChangeContextQuery(f.workspace, f.subject.value, f.profile, f.size.value))
  }

  function BuildGraph(verb: Verb, values: Values): Option<Query>
    requires verb == GraphPath || verb == GraphCorridor
  {
    if verb == GraphPath then BuildGraphPath(ReadGraphFields(values, 10_000, 50_000))
    else BuildGraphCorridor(ReadGraphFields(values, 256, 1_024))
  }

  function BuildSymbols(verb: Verb, bag: Bag): Option<Query>
    requires verb == SymbolGraph
  {
    BuildSymbolGraph(ReadBounded(bag, FocusField, LimitField, 40))
  }

  function BuildIdentities(verb: Verb, bag: Bag): Option<Query>
    requires verb == IdentityChildren
  {
    BuildIdentityChildren(ReadBounded(bag, PrefixField, LimitField, 80))
  }

  function BuildContext(verb: Verb, bag: Bag): Option<Query>
    requires verb == ChangeContext
  {
    BuildChangeContext(ReadBounded(bag, FocusField, MaxItemsField, 20))
  }

  /** `build_query`, for the queries the validator constrains. */
  function BuildQuery(verb: Verb, bag: Bag): Option<Query> {
    if verb == GraphPath || verb == GraphCorridor then BuildGraph(verb, bag.values)
    else if verb == SymbolGraph then BuildSymbols(verb, bag)
    else if verb == IdentityChildren then BuildIdentities(verb, bag)
    else if verb == ChangeContext then BuildContext(verb, bag)
    else Some(OtherQuery(verb))
  }

  /** `parse_query`, from the collected fields on. */
  function ParseRequest(verb: Verb, bag: Bag): Option<Request> {
    var named := bag.(values := Renamed(verb, bag.values));
    if !FieldsAccepted(verb, named)
       || !Accepts(named.values, ConsistencyField, CONSISTENCIES) then None
    else
      var page, query := ParsePage(named.values), BuildQuery(verb, named);
      if page.None? || query.None? then None
      else Some(Request(query.value, One(named.values, ConsistencyField).GetOr("current"), page.value))
  }

  // ---- what parsing guarantees ------------------------------------------------------------------------------

  lemma CorridorHasNoPaging()
    ensures !FieldAllowed(GraphCorridor, LimitField) && !FieldAllowed(GraphCorridor, CursorField)
  {
  }

  lemma AcceptedFieldsAreAllowed(verb: Verb, values: Values, field: Field)
    requires ValuesAccepted(verb, values) && !FieldAllowed(verb, field)
    ensures One(values, field) == None
  {
    forall i | 0 <= i < |values|
      ensures values[i].0 != field
    {
      assert ValueAccepted(verb, values, i);
    }
    OneIffGiven(values, field);
  }

  lemma CorridorCarriesDefaultPage(values: Values)
    requires ValuesAccepted(GraphCorridor, values)
    ensures ParsePage(values) == Some(DEFAULT_PAGE)
  {
    CorridorHasNoPaging();
    AcceptedFieldsAreAllowed(GraphCorridor, values, LimitField);
    AcceptedFieldsAreAllowed(GraphCorridor, values, CursorField);
  }

  lemma BuiltQueriesAreValid(verb: Verb, bag: Bag, consistency: string, page: Page)
    requires BuildQuery(verb, bag).Some?
    requires verb == GraphCorridor ==> page == DEFAULT_PAGE
    ensures RequestValid(Request(BuildQuery(verb, bag).value, consistency, page))
  {
  }

  /** Every request the text language produces is one the direct interface accepts. */
  lemma ParsedRequestsAreValid(verb: Verb, bag: Bag)
    ensures var request := ParseRequest(verb, bag);
            request.Some? ==> RequestValid(request.value)
  {
    if ParseRequest(verb, bag).Some? {
      var named := bag.(values := Renamed(verb, bag.values));
      if verb == GraphCorridor {
        assert ValuesAccepted(verb, named.values);
        CorridorCarriesDefaultPage(named.values);
      }
      BuiltQueriesAreValid(verb, named, ParseRequest(verb, bag).value.consistency, ParsePage(named.values).value);
    }
  }

  /** The verbs for which `limit` and `max_items` are two names of one field. */
  predicate TakesBothNames(verb: Verb) {
    verb == SymbolGraph || verb == IdentityChildren || verb == ChangeContext
  }

  lemma DeclaredSizes(verb: Verb)
    ensures MaxItemsField in DeclaredFields(verb) <==> verb == ChangeContext
    ensures LimitField !in DeclaredFields(verb)
  {
  }

  lemma AliasOfSizes(verb: Verb)
    ensures Alias(verb, MaxItemsField) == if BoundedResult(verb) then LimitField else MaxItemsField
    ensures Alias(verb, LimitField) == if verb == ChangeContext then MaxItemsField else LimitField
  {
    DeclaredSizes(verb);
  }

  lemma SameNameExactlyFor(verb: Verb)
    ensures Alias(verb, MaxItemsField) == Alias(verb, LimitField) <==> TakesBothNames(verb)
  {
    AliasOfSizes(verb);
  }

  lemma EitherNameRenamesAlike(verb: Verb, values: Values, i: nat, text: string)
    requires TakesBothNames(verb) && i < |values|
    ensures Renamed(verb, values[i := (LimitField, text)]) == Renamed(verb, values[i := (MaxItemsField, text)])
  {
    SameNameExactlyFor(verb);
    var a, b := values[i := (LimitField, text)], values[i := (MaxItemsField, text)];
    assert Renamed(verb, a) == Renamed(verb, b);
  }

  /** For these verbs a value under either name makes the same request, wherever it stands. */
  lemma AliasesAreInterchangeable(verb: Verb, bag: Bag, i: nat, text: string)
    requires TakesBothNames(verb) && i < |bag.values|
    ensures ParseRequest(verb, bag.(values := bag.values[i := (LimitField, text)]))
         == ParseRequest(verb, bag.(values := bag.values[i := (MaxItemsField, text)]))
  {
    EitherNameRenamesAlike(verb, bag.values, i, text);
  }

  /** For every other verb `max_items` is an error. */
  lemma MaxItemsIsRejectedElsewhere(verb: Verb, bag: Bag, i: nat)
    requires !TakesBothNames(verb) && i < |bag.values| && bag.values[i].0 == MaxItemsField
    ensures ParseRequest(verb, bag) == None
  {
    DeclaredSizes(verb);
    AliasOfSizes(verb);
    assert !ValueAccepted(verb, Renamed(verb, bag.values), i);
  }

  lemma AliasIsFinal(verb: Verb, field: Field)
    ensures Alias(verb, Alias(verb, field)) == Alias(verb, field)
  {
    AliasOfSizes(verb);
  }

  lemma RenamedIsFinal(verb: Verb, values: Values)
    ensures Renamed(verb, Renamed(verb, values)) == Renamed(verb, values)
  {
    forall i | 0 <= i < |values|
      ensures Renamed(verb, Renamed(verb, values))[i] == Renamed(verb, values)[i]
    {
      AliasIsFinal(verb, values[i].0);
    }
  }

  /** Renaming what was renamed changes nothing. */
  lemma RenamingIsFinal(verb: Verb, bag: Bag)
    ensures ParseRequest(verb, bag.(values := Renamed(verb, bag.values))) == ParseRequest(verb, bag)
  {
    RenamedIsFinal(verb, bag.values);
  }
}
