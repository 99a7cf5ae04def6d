/**
  What a parsed request carries (crates/query/src/lib.rs): for fields written as numbers, quoted
  strings and quoted lists, in any order, the request that comes out, and exactly when none does.
*/
module RequestContents {
  import opened Numbers
  import opened Results
  import opened Whitespace
  import opened QueryText
  import opened QueryRequest
  import Decimal
  import Paging

  // ---- fields as they are written ---------------------------------------------------------------------------

  datatype Given =
    | NumberField(key: Field, n: nat)
    | TextField(key: Field, text: string)
    | ItemsField(key: Field, items: seq<string>)

  /** The fields that are read as numbers. */
  predicate IsNumber(key: Field) {
    key in {LimitField, MaxItemsField, MaxDepthField, MaxSymbolsField, MaxEdgesField, MinCoverageField, MinCountField}
  }

  predicate Typed(g: Given) {
    match g
    case NumberField(key, n) => IsNumber(key) && n < USIZE_BOUND
    case TextField(key, _) => !IsNumber(key) && !MultiValue(key)
    case ItemsField(key, items) => MultiValue(key) && forall i | 0 <= i < |items| :: Plain(items[i])
  }

  predicate AllTyped(gs: seq<Given>) {
    forall i | 0 <= i < |gs| :: Typed(gs[i])
  }

  function TextOf(g: Given): string {
    match g
    case NumberField(_, n) => Decimal.Print(n)
    case TextField(_, text) => Quote(text)
    case ItemsField(_, items) => ListText(items)
  }

  /** The fields with the texts the query line has for them. */
  function ValuesOf(gs: seq<Given>): (values: Values)
    ensures |values| == |gs|
  {
    seq(|gs|, i requires 0 <= i < |gs| => (gs[i].key, TextOf(gs[i])))
  }

  // ---- what was given -----------------------------------------------------------------------------------------

  /** What a single-valued field stands for. */
  function ScalarOf(g: Given): string {
    match g
    case NumberField(_, n) => Decimal.Print(n)
    case TextField(_, text) => text
    case ItemsField(_, items) => ""
  }

  function TextGiven(gs: seq<Given>, key: Field): Option<string> {
    if gs == [] then None else if gs[0].key == key then Some(ScalarOf(gs[0])) else TextGiven(gs[1..], key)
  }

  function NumberGiven(gs: seq<Given>, key: Field): Option<nat> {
    if gs == [] then None
    else if gs[0].NumberField? && gs[0].key == key then Some(gs[0].n) else NumberGiven(gs[1..], key)
  }

  /** All items given under a key, in order. */
  function ItemsGiven(gs: seq<Given>, key: Field): seq<string> {
    if gs == [] then []
    else (if gs[0].ItemsField? && gs[0].key == key then gs[0].items else []) + ItemsGiven(gs[1..], key)
  }

  lemma {:induction false} NumbersAreBare(n: nat)
    ensures ScalarValue(Decimal.Print(n)) == Decimal.Print(n)
  {
    Decimal.PrintsDigits(n);
    Paging.DigitsAreBare(Decimal.Print(n));
    BareValueSurvives(Decimal.Print(n));
  }

  lemma {:induction false} ScalarReads(g: Given)
    requires Typed(g) && !g.ItemsField?
    ensures ScalarValue(TextOf(g)) == ScalarOf(g)
  {
    match g
    case NumberField(_, n) => NumbersAreBare(n);
    case TextField(_, text) => ScalarOfQuote(text);
  }

  lemma {:induction false} ValuesRest(gs: seq<Given>)
    requires gs != []
    ensures ValuesOf(gs)[0] == (gs[0].key, TextOf(gs[0])) && ValuesOf(gs)[1..] == ValuesOf(gs[1..])
  {
  }

  lemma {:induction false} OneReads(gs: seq<Given>, key: Field)
    requires AllTyped(gs) && !MultiValue(key)
    ensures One(ValuesOf(gs), key) == TextGiven(gs, key)
  {
    if gs != [] {
      ValuesRest(gs);
      assert Typed(gs[0]);
      if gs[0].key == key {
        ScalarReads(gs[0]);
      } else {
        OneReads(gs[1..], key);
      }
    }
  }

  lemma {:induction false} NumberIsText(gs: seq<Given>, key: Field)
    requires AllTyped(gs) && IsNumber(key)
    ensures TextGiven(gs, key).Some? <==> NumberGiven(gs, key).Some?
    ensures NumberGiven(gs, key).Some? ==>
              && TextGiven(gs, key).value == Decimal.Print(NumberGiven(gs, key).value)
              && NumberGiven(gs, key).value < USIZE_BOUND
  {
    if gs != [] {
      assert Typed(gs[0]);
      NumberIsText(gs[1..], key);
    }
  }

  /** A number field is read as the number that was given, or the default. */
  lemma {:induction false} NumberReads(gs: seq<Given>, key: Field, default: nat)
    requires AllTyped(gs) && IsNumber(key)
    ensures Number(ValuesOf(gs), key, default) == Some(NumberGiven(gs, key).GetOr(default))
  {
    OneReads(gs, key);
    NumberIsText(gs, key);
    if NumberGiven(gs, key).Some? {
      Decimal.ParsePrint(NumberGiven(gs, key).value, USIZE_BOUND);
    }
  }

  /** A list field is read as all its items, in order. */
  lemma {:induction false} ManyReads(gs: seq<Given>, key: Field)
    requires AllTyped(gs) && MultiValue(key)
    ensures Many(ValuesOf(gs), key) == ItemsGiven(gs, key)
  {
    if gs != [] {
      ValuesRest(gs);
      assert Typed(gs[0]);
      ManyReads(gs[1..], key);
      if gs[0].key == key {
        ListSurvives(gs[0].items);
      }
    }
  }

  // ---- which fields are accepted --------------------------------------------------------------------------------

  /** No field that takes one value is given two different ones. */
  predicate NoConflict(gs: seq<Given>) {
    forall i, j | 0 <= i < j < |gs| :: gs[i].key == gs[j].key && !MultiValue(gs[i].key) ==> ScalarOf(gs[i]) == ScalarOf(gs[j])
  }

  predicate AllIn(gs: seq<Given>, keys: set<Field>) {
    forall i | 0 <= i < |gs| :: gs[i].key in keys
  }

  predicate AllAllowed(verb: Verb, gs: seq<Given>) {
    forall i | 0 <= i < |gs| :: FieldAllowed(verb, gs[i].key)
  }

  lemma {:induction false} ValueAcceptedIff(verb: Verb, gs: seq<Given>, i: nat)
    requires AllTyped(gs) && i < |gs|
    ensures ValueAccepted(verb, ValuesOf(gs), i) <==>
            && FieldAllowed(verb, gs[i].key)
            && forall j | i < j < |gs| ::
                 gs[i].key == gs[j].key && !MultiValue(gs[i].key) ==> ScalarOf(gs[i]) == ScalarOf(gs[j])
  {
    assert Typed(gs[i]);
    if gs[i].ItemsField? {
      var text := ListText(gs[i].items);
      assert text[0] == '[' && text[|text| - 1] == ']';
    } else {
      ScalarReads(gs[i]);
      forall j | i < j < |gs| && gs[j].key == gs[i].key
        ensures ScalarValue(ValuesOf(gs)[j].1) == ScalarOf(gs[j])
      {
        assert Typed(gs[j]);
        ScalarReads(gs[j]);
      }
    }
  }

  lemma {:induction false} ValuesAcceptedIff(verb: Verb, gs: seq<Given>)
    requires AllTyped(gs)
    ensures ValuesAccepted(verb, ValuesOf(gs)) <==> AllAllowed(verb, gs) && NoConflict(gs)
  {
    forall i | 0 <= i < |gs|
      ensures ValueAccepted(verb, ValuesOf(gs), i) <==>
              && FieldAllowed(verb, gs[i].key)
              && forall j | i < j < |gs| ::
                   gs[i].key == gs[j].key && !MultiValue(gs[i].key) ==> ScalarOf(gs[i]) == ScalarOf(gs[j])
    {
      ValueAcceptedIff(verb, gs, i);
    }
  }

  /** Verbs with a single name for the size of their result do not rename anything. */
  lemma {:induction false} NothingRenamed(verb: Verb, values: Values)
    requires !TakesBothNames(verb)
    ensures Renamed(verb, values) == values
  {
    AliasOfSizes(verb);
    DeclaredSizes(verb);
    forall i | 0 <= i < |values|
      ensures Alias(verb, values[i].0) == values[i].0
    {
    }
  }

  lemma {:induction false} DefaultPageUnless(gs: seq<Given>)
    requires AllTyped(gs) && TextGiven(gs, LimitField) == None && TextGiven(gs, CursorField) == None
    ensures ParsePage(ValuesOf(gs)) == Some(DEFAULT_PAGE)
  {
    OneReads(gs, LimitField);
    OneReads(gs, CursorField);
  }

  lemma {:induction false} NotGiven(gs: seq<Given>, keys: set<Field>, key: Field)
    requires AllIn(gs, keys) && key !in keys
    ensures TextGiven(gs, key) == None
  {
    if gs != [] {
      NotGiven(gs[1..], keys, key);
    }
  }

  // ---- graph queries ------------------------------------------------------------------------------------------------

  const PATH_KEYS := {WorkspaceField, FromField, ToField, ExpectField, RelationField, MaxDepthField, MaxSymbolsField,
                      MaxEdgesField, MinCoverageField, ConsistencyField}
  const CORRIDOR_KEYS := {WorkspaceField, FromField, ToField, PathField, LangField, KindField, ShapeField, SrcsetField,
                          RelationField, MaxDepthField, MaxSymbolsField, MaxEdgesField, MinCoverageField,
                          ConsistencyField}

  lemma {:induction false} PathSpec(key: Field)
    ensures FieldAllowed(GraphPath, key) <==> key in PATH_KEYS
    ensures RequiredFields(GraphPath) == [FromField, ToField] && !TakesPositional(GraphPath)
    ensures PositionalField(GraphPath) == None
  {
  }

  lemma {:induction false} CorridorSpec(key: Field)
    ensures FieldAllowed(GraphCorridor, key) <==> key in CORRIDOR_KEYS
    ensures RequiredFields(GraphCorridor) == [FromField, ToField, RelationField]
    ensures !TakesPositional(GraphCorridor) && PositionalField(GraphCorridor) == None
  {
  }

  /** What was given, with the defaults of the query. */
  function Meant(gs: seq<Given>, symbols: nat, edges: nat): GraphFields {
    GraphFields(TextGiven(gs, WorkspaceField), TextGiven(gs, FromField), TextGiven(gs, ToField), TextGiven(gs, ExpectField),
                ItemsGiven(gs, RelationField), ScopeGiven(gs), Some(LimitsGiven(gs, symbols, edges)))
  }

  function ScopeGiven(gs: seq<Given>): Scope {
    Scope(ItemsGiven(gs, PathField), ItemsGiven(gs, LangField), ItemsGiven(gs, KindField),
          ItemsGiven(gs, ShapeField), ItemsGiven(gs, SrcsetField))
  }

  function LimitsGiven(gs: seq<Given>, symbols: nat, edges: nat): GraphLimits {
    GraphLimits(NumberGiven(gs, MaxDepthField).GetOr(12), NumberGiven(gs, MaxSymbolsField).GetOr(symbols),
                NumberGiven(gs, MaxEdgesField).GetOr(edges), NumberGiven(gs, MinCoverageField).GetOr(100))
  }

  lemma {:induction false} LimitsRead(gs: seq<Given>, symbols: nat, edges: nat)
    requires AllTyped(gs)
    ensures ParseLimits(ValuesOf(gs), symbols, edges) == Some(LimitsGiven(gs, symbols, edges))
  {
    NumberReads(gs, MaxDepthField, 12);
    NumberReads(gs, MaxSymbolsField, symbols);
    NumberReads(gs, MaxEdgesField, edges);
    NumberReads(gs, MinCoverageField, 100);
  }

  lemma {:induction false} ScopeRead(gs: seq<Given>, values: Values)
    requires AllTyped(gs) && values == ValuesOf(gs)
    ensures ReadScope(values) == ScopeGiven(gs)
  {
    ManyReads(gs, PathField);
    ManyReads(gs, LangField);
    ManyReads(gs, KindField);
    ManyReads(gs, ShapeField);
    ManyReads(gs, SrcsetField);
  }

  /** The builders read what was given. */
  lemma {:induction false} ReadsWhatIsMeant(gs: seq<Given>, values: Values, symbols: nat, edges: nat)
    requires AllTyped(gs) && values == ValuesOf(gs)
    ensures ReadGraphFields(values, symbols, edges) == Meant(gs, symbols, edges)
  {
    LimitsRead(gs, symbols, edges);
    ScopeRead(gs, values);
    ManyReads(gs, RelationField);
    OneReads(gs, WorkspaceField);
    OneReads(gs, FromField);
    OneReads(gs, ToField);
    OneReads(gs, ExpectField);
  }

  // ---- graph.path

  function PathRelations(relation: seq<string>): seq<string> {
    if relation == [] then ["calls", "method_call"] else relation
  }

  /** The request these fields denote. */
  function PathRequest(f: GraphFields, consistency: Option<string>): Request
    requires f.limits.Some?
  {
    Request(GraphPathQuery(f.workspace, f.from.GetOr(""), f.to.GetOr(""), f.expectation.GetOr("reachable"),
                           PathRelations(f.relation), f.limits.value),
            consistency.GetOr("current"), DEFAULT_PAGE)
  }

  lemma {:induction false} PathBuilt(f: GraphFields, consistency: Option<string>)
    requires f.from.Some? && f.to.Some? && f.limits.Some?
    ensures BuildGraphPath(f) ==
            if OneOf(f.expectation, EXPECTATIONS) && RequestValid(PathRequest(f, consistency))
            then Some(PathRequest(f, consistency).query) else None
  {
  }

  /** The fields are known, agree with each other, and name both ends. */
  predicate EndsGiven(gs: seq<Given>, keys: set<Field>) {
    AllIn(gs, keys) && NoConflict(gs) && TextGiven(gs, FromField).Some? && TextGiven(gs, ToField).Some?
  }

  lemma {:induction false} PathAllowed(gs: seq<Given>)
    ensures AllAllowed(GraphPath, gs) <==> AllIn(gs, PATH_KEYS)
  {
    forall i | 0 <= i < |gs|
      ensures FieldAllowed(GraphPath, gs[i].key) <==> gs[i].key in PATH_KEYS
    {
      PathSpec(gs[i].key);
    }
  }

  /** Which lists of fields `graph.path` accepts. */
  lemma {:induction false} PathFieldsAccepted(gs: seq<Given>, bag: Bag, accepted: bool)
    requires AllTyped(gs) && bag == Bag(ValuesOf(gs), [], []) && accepted == EndsGiven(gs, PATH_KEYS)
    ensures FieldsAccepted(GraphPath, bag) == accepted
  {
    ValuesAcceptedIff(GraphPath, gs);
    PathAllowed(gs);
    PathSpec(FromField);
    OneReads(gs, FromField);
    OneReads(gs, ToField);
    RequiredTwo(GraphPath, bag, FromField, ToField);
  }

  /** What `validate_fields` asks for, for a verb with two required fields and no positional argument. */
  lemma {:induction false} RequiredTwo(verb: Verb, bag: Bag, a: Field, b: Field)
    requires bag.positional == [] && bag.projection == []
    requires RequiredFields(verb) == [a, b] && !TakesPositional(verb) && PositionalField(verb) == None
    ensures FieldsAccepted(verb, bag) <==>
            ValuesAccepted(verb, bag.values) && One(bag.values, a).Some? && One(bag.values, b).Some?
  {
    var required := RequiredFields(verb);
    assert |required| == 2 && required[0] == a && required[1] == b;
  }

  lemma {:induction false} EndsGivenImplies(gs: seq<Given>, keys: set<Field>)
    requires EndsGiven(gs, keys)
    ensures AllIn(gs, keys) && TextGiven(gs, FromField).Some? && TextGiven(gs, ToField).Some?
  {
  }

  /** Both ends are given, and no page. */
  predicate EndsOnly(gs: seq<Given>) {
    && TextGiven(gs, FromField).Some? && TextGiven(gs, ToField).Some?
    && TextGiven(gs, LimitField) == None && TextGiven(gs, CursorField) == None
  }

  lemma {:induction false} PathEnds(gs: seq<Given>, accepted: bool)
    requires accepted == EndsGiven(gs, PATH_KEYS)
    ensures accepted ==> EndsOnly(gs)
  {
    if accepted {
      EndsGivenImplies(gs, PATH_KEYS);
      NotGiven(gs, PATH_KEYS, LimitField);
      NotGiven(gs, PATH_KEYS, CursorField);
    }
  }

  lemma {:induction false} CorridorEnds(gs: seq<Given>, ends: bool)
    requires ends == EndsGiven(gs, CORRIDOR_KEYS)
    ensures ends ==> EndsOnly(gs)
  {
    if ends {
      EndsGivenImplies(gs, CORRIDOR_KEYS);
      NotGiven(gs, CORRIDOR_KEYS, LimitField);
      NotGiven(gs, CORRIDOR_KEYS, CursorField);
    }
  }

  /** A request as `parse_query` puts it together. */
  function Assembled(accepted: bool, query: Option<Query>, consistency: Option<string>, page: Option<Page>): Option<Request> {
    if accepted && OneOf(consistency, CONSISTENCIES) && page.Some? && query.Some?
    then Some(Request(query.value, consistency.GetOr("current"), page.value)) else None
  }

  /** `parse_query` once the fields are read. */
  lemma {:induction false} ParsedFrom(verb: Verb, bag: Bag)
    ensures var named := bag.(values := Renamed(verb, bag.values));
            ParseRequest(verb, bag) == Assembled(FieldsAccepted(verb, named), BuildQuery(verb, named),
                                                 One(named.values, ConsistencyField), ParsePage(named.values))
  {
  }

  lemma {:induction false} PathAssembled(f: GraphFields, consistency: Option<string>, accepted: bool, page: Option<Page>)
    requires f.limits.Some?
    requires accepted ==> f.from.Some? && f.to.Some? && page == Some(DEFAULT_PAGE)
    ensures Assembled(accepted, BuildGraphPath(f), consistency, page) ==
            if accepted && OneOf(f.expectation, EXPECTATIONS) && OneOf(consistency, CONSISTENCIES)
               && RequestValid(PathRequest(f, consistency))
            then Some(PathRequest(f, consistency)) else None
  {
    if accepted {
      PathBuilt(f, consistency);
    }
  }

  lemma {:induction false} PathQueryIsBuilt(bag: Bag)
    ensures BuildQuery(GraphPath, bag) == BuildGraphPath(ReadGraphFields(bag.values, 10_000, 50_000))
  {
  }

  /** How a bag of fields reads, once its fields are accepted or not. */
  predicate ReadAs(bag: Bag, symbols: nat, edges: nat, f: GraphFields, consistency: Option<string>, accepted: bool) {
    && ReadGraphFields(bag.values, symbols, edges) == f && f.limits.Some?
    && One(bag.values, ConsistencyField) == consistency
    && (accepted ==> f.from.Some? && f.to.Some? && ParsePage(bag.values) == Some(DEFAULT_PAGE))
  }

  lemma {:induction false} PageWhenEnds(gs: seq<Given>, values: Values, accepted: bool)
    requires AllTyped(gs) && values == ValuesOf(gs) && (accepted ==> EndsOnly(gs))
    ensures accepted ==> ParsePage(values) == Some(DEFAULT_PAGE)
  {
    if accepted {
      DefaultPageUnless(gs);
    }
  }

  /** The fields given read as meant. */
  lemma {:induction false} GivenReads(gs: seq<Given>, bag: Bag, symbols: nat, edges: nat,
                                      f: GraphFields, consistency: Option<string>, accepted: bool)
    requires AllTyped(gs) && bag.values == ValuesOf(gs) && f == Meant(gs, symbols, edges)
    requires consistency == TextGiven(gs, ConsistencyField) && (accepted ==> EndsOnly(gs))
    ensures ReadAs(bag, symbols, edges, f, consistency, accepted)
  {
    OneReads(gs, ConsistencyField);
    ReadsWhatIsMeant(gs, bag.values, symbols, edges);
    PageWhenEnds(gs, bag.values, accepted);
  }

  lemma {:induction false} PathParsed(bag: Bag)
    ensures ParseRequest(GraphPath, bag) ==
            Assembled(FieldsAccepted(GraphPath, bag), BuildGraphPath(ReadGraphFields(bag.values, 10_000, 50_000)),
                      One(bag.values, ConsistencyField), ParsePage(bag.values))
  {
    NothingRenamed(GraphPath, bag.values);
    PathQueryIsBuilt(bag);
    ParsedFrom(GraphPath, bag);
  }

  /**
    `graph.path` with fields in any order is accepted exactly when the fields are known, agree, name
    both ends and use the words of the language, and the request they denote passes the direct
    validator; what comes out is exactly that request.
  */
  lemma {:induction false} PathCarriesFields(gs: seq<Given>)
    requires AllTyped(gs)
    ensures ParseRequest(GraphPath, Bag(ValuesOf(gs), [], [])) == PathOutcome(gs)
  {
    var bag, f := Bag(ValuesOf(gs), [], []), Meant(gs, 10_000, 50_000);
    var consistency, accepted := TextGiven(gs, ConsistencyField), EndsGiven(gs, PATH_KEYS);
    PathEnds(gs, accepted);
    GivenReads(gs, bag, 10_000, 50_000, f, consistency, accepted);
    PathFieldsAccepted(gs, bag, accepted);
    PathParsed(bag);
    PathAssembled(f, consistency, accepted, ParsePage(bag.values));
  }

  /** The request that fields for `graph.path` make, if any. */
  function PathOutcome(gs: seq<Given>): Option<Request> {
    var f, consistency := Meant(gs, 10_000, 50_000), TextGiven(gs, ConsistencyField);
    if EndsGiven(gs, PATH_KEYS) && OneOf(f.expectation, EXPECTATIONS) && OneOf(consistency, CONSISTENCIES)
       && RequestValid(PathRequest(f, consistency))
    then Some(PathRequest(f, consistency)) else None
  }

  predicate ItemsWithin(items: seq<string>, count: nat, chars: nat) {
    |items| <= count && forall i | 0 <= i < |items| :: Trim(items[i]) != "" && |items[i]| <= chars
  }

  /** The direct validator's bounds on a path request, spelled out. */
  lemma {:induction false} PathBounds(f: GraphFields, limits: GraphLimits, consistency: Option<string>)
    requires f.limits == Some(limits)
    ensures RequestValid(PathRequest(f, consistency)) <==>
            && limits.depth <= 64 && 1 <= limits.symbols <= 100_000 && 1 <= limits.edges <= 500_000
            && limits.coverage <= 100 && (f.relation == [] || ItemsWithin(f.relation, 16, 64))
  {
    if f.relation == [] {
      DefaultRelationsFit(PathRelations(f.relation));
    }
  }

  lemma {:induction false} DefaultRelationsFit(relation: seq<string>)
    requires relation == ["calls", "method_call"]
    ensures RelationsValid(relation)
  {
    assert Trimmed(relation[0]) && Trimmed(relation[1]);
  }

  // ---- graph.corridor

  function CorridorRequest(f: GraphFields, consistency: Option<string>): Request
    requires f.limits.Some?
  {
    Request(GraphCorridorQuery(f.workspace, f.from.GetOr(""), f.to.GetOr(""), f.scope, f.relation, f.limits.value),
            consistency.GetOr("current"), DEFAULT_PAGE)
  }

  lemma {:induction false} CorridorBuilt(f: GraphFields, consistency: Option<string>)
    requires f.from.Some? && f.to.Some? && f.limits.Some?
    ensures BuildGraphCorridor(f) ==
            if RequestValid(CorridorRequest(f, consistency)) then Some(CorridorRequest(f, consistency).query) else None
  {
  }

  lemma {:induction false} CorridorAllowed(gs: seq<Given>)
    ensures AllAllowed(GraphCorridor, gs) <==> AllIn(gs, CORRIDOR_KEYS)
  {
    forall i | 0 <= i < |gs|
      ensures FieldAllowed(GraphCorridor, gs[i].key) <==> gs[i].key in CORRIDOR_KEYS
    {
      CorridorSpec(gs[i].key);
    }
  }

  lemma {:induction false} RequiredThree(verb: Verb, bag: Bag, a: Field, b: Field, c: Field)
    requires bag.positional == [] && bag.projection == []
    requires RequiredFields(verb) == [a, b, c] && !TakesPositional(verb) && PositionalField(verb) == None
    ensures FieldsAccepted(verb, bag) <==>
            && ValuesAccepted(verb, bag.values)
            && One(bag.values, a).Some? && One(bag.values, b).Some? && One(bag.values, c).Some?
  {
    var required := RequiredFields(verb);
    assert |required| == 3 && required[0] == a && required[1] == b && required[2] == c;
  }

  lemma {:induction false} CorridorFieldsAccepted(gs: seq<Given>, bag: Bag, ends: bool)
    requires AllTyped(gs) && bag == Bag(ValuesOf(gs), [], []) && ends == EndsGiven(gs, CORRIDOR_KEYS)
    ensures FieldsAccepted(GraphCorridor, bag) == (ends && One(bag.values, RelationField).Some?)
  {
    ValuesAcceptedIff(GraphCorridor, gs);
    CorridorAllowed(gs);
    CorridorSpec(FromField);
    OneReads(gs, FromField);
    OneReads(gs, ToField);
    RequiredThree(GraphCorridor, bag, FromField, ToField, RelationField);
  }

  lemma {:induction false} SomethingGiven(gs: seq<Given>, key: Field)
    requires AllTyped(gs) && MultiValue(key) && ItemsGiven(gs, key) != []
    ensures One(ValuesOf(gs), key).Some?
  {
    ValuesRest(gs);
    if gs[0].key != key {
      SomethingGiven(gs[1..], key);
    }
  }

  lemma {:induction false} CorridorAssembled(f: GraphFields, consistency: Option<string>, accepted: bool, page: Option<Page>)
    requires f.limits.Some?
    requires accepted ==> f.from.Some? && f.to.Some? && page == Some(DEFAULT_PAGE)
    ensures Assembled(accepted, BuildGraphCorridor(f), consistency, page) ==
            if accepted && OneOf(consistency, CONSISTENCIES) && RequestValid(CorridorRequest(f, consistency))
            then Some(CorridorRequest(f, consistency)) else None
  {
    if accepted {
      CorridorBuilt(f, consistency);
    }
  }

  lemma {:induction false} CorridorQueryIsBuilt(bag: Bag)
    ensures BuildQuery(GraphCorridor, bag) == BuildGraphCorridor(ReadGraphFields(bag.values, 256, 1_024))
  {
  }

  lemma {:induction false} CorridorParsed(bag: Bag)
    ensures ParseRequest(GraphCorridor, bag) ==
            Assembled(FieldsAccepted(GraphCorridor, bag), BuildGraphCorridor(ReadGraphFields(bag.values, 256, 1_024)),
                      One(bag.values, ConsistencyField), ParsePage(bag.values))
  {
    NothingRenamed(GraphCorridor, bag.values);
    CorridorQueryIsBuilt(bag);
    ParsedFrom(GraphCorridor, bag);
  }

  lemma {:induction false} CorridorNeedsRelation(f: GraphFields, consistency: Option<string>)
    requires f.limits.Some? && RequestValid(CorridorRequest(f, consistency))
    ensures f.relation != []
  {
  }

  /** The same for `graph.corridor`: each facet of the scope holds exactly what was given under its own key. */
  lemma {:induction false} CorridorCarriesFields(gs: seq<Given>)
    requires AllTyped(gs)
    ensures ParseRequest(GraphCorridor, Bag(ValuesOf(gs), [], [])) == CorridorOutcome(gs)
  {
    var bag, f := Bag(ValuesOf(gs), [], []), Meant(gs, 256, 1_024);
    var consistency, ends := TextGiven(gs, ConsistencyField), EndsGiven(gs, CORRIDOR_KEYS);
    var related := One(bag.values, RelationField).Some?;
    CorridorEnds(gs, ends);
    GivenReads(gs, bag, 256, 1_024, f, consistency, ends && related);
    CorridorFieldsAccepted(gs, bag, ends);
    CorridorParsed(bag);
    CorridorAssembled(f, consistency, ends && related, ParsePage(bag.values));
    if RequestValid(CorridorRequest(f, consistency)) {
      CorridorNeedsRelation(f, consistency);
      SomethingGiven(gs, RelationField);
    }
  }

  /** The request that fields for `graph.corridor` make, if any. */
  function CorridorOutcome(gs: seq<Given>): Option<Request> {
    var f, consistency := Meant(gs, 256, 1_024), TextGiven(gs, ConsistencyField);
    if EndsGiven(gs, CORRIDOR_KEYS) && OneOf(consistency, CONSISTENCIES) && RequestValid(CorridorRequest(f, consistency))
    then Some(CorridorRequest(f, consistency)) else None
  }

  /** The direct validator's bounds on a corridor request, spelled out. */
  lemma {:induction false} CorridorBounds(f: GraphFields, limits: GraphLimits, consistency: Option<string>)
    requires f.limits == Some(limits)
    ensures RequestValid(CorridorRequest(f, consistency)) <==>
            && limits.depth <= 64 && 1 <= limits.symbols <= 100_000 && 1 <= limits.edges <= 500_000
            && limits.coverage <= 100 && f.relation != [] && ItemsWithin(f.relation, 16, 64)
            && !(f.scope.path == [] && f.scope.lang == [] && f.scope.kind == [] && f.scope.shape == [] && f.scope.srcset == [])
            && ItemsWithin(f.scope.path, 16, 256) && ItemsWithin(f.scope.lang, 16, 256)
            && ItemsWithin(f.scope.kind, 16, 256) && ItemsWithin(f.scope.shape, 16, 256)
            && ItemsWithin(f.scope.srcset, 16, 256)
  {
  }

  // ---- bounded queries ----------------------------------------------------------------------------------------------

  const SYMBOL_GRAPH_KEYS := {WorkspaceField, FocusField, DirectionField, RelationField, MinCountField,
                              IncludeInternalField, ConsistencyField, LimitField}
  const IDENTITY_CHILDREN_KEYS := {WorkspaceField, PrefixField, ConsistencyField, LimitField}
  const CHANGE_CONTEXT_KEYS := {WorkspaceField, FocusField, ProfileField, MaxItemsField, ConsistencyField}

  /** The same fields under the names the verb knows them by. */
  function NamedFor(verb: Verb, gs: seq<Given>): (rs: seq<Given>)
    ensures |rs| == |gs|
  {
    seq(|gs|, i requires 0 <= i < |gs| => gs[i].(key := Alias(verb, gs[i].key)))
  }

  /** A size may go by its other name; every other field keeps its own. */
  lemma {:induction false} AliasKeepsKind(verb: Verb, key: Field)
    ensures Alias(verb, key) == key || (IsNumber(key) && IsNumber(Alias(verb, key)))
  {
    AliasOfSizes(verb);
  }

  lemma {:induction false} NamedStaysTyped(verb: Verb, g: Given, r: Given)
    requires Typed(g) && r == g.(key := Alias(verb, g.key))
    ensures Typed(r) && TextOf(r) == TextOf(g)
  {
    AliasKeepsKind(verb, g.key);
  }

  lemma {:induction false} RenamedIsNamed(verb: Verb, gs: seq<Given>, rs: seq<Given>)
    requires AllTyped(gs) && rs == NamedFor(verb, gs)
    ensures Renamed(verb, ValuesOf(gs)) == ValuesOf(rs) && AllTyped(rs)
  {
    forall i | 0 <= i < |gs|
      ensures Typed(rs[i]) && TextOf(rs[i]) == TextOf(gs[i])
    {
      assert Typed(gs[i]);
      NamedStaysTyped(verb, gs[i], rs[i]);
    }
  }

  /** The size under either of its two names. */
  function SizeGiven(gs: seq<Given>): Option<nat> {
    if gs == [] then None
    else if gs[0].NumberField? && (gs[0].key == LimitField || gs[0].key == MaxItemsField) then Some(gs[0].n)
    else SizeGiven(gs[1..])
  }

  lemma {:induction false} SizeIsNamed(verb: Verb, gs: seq<Given>, rs: seq<Given>)
    requires TakesBothNames(verb) && rs == NamedFor(verb, gs)
    ensures NumberGiven(rs, if verb == ChangeContext then MaxItemsField else LimitField) == SizeGiven(gs)
  {
    AliasOfSizes(verb);
    if gs != [] {
      assert rs[1..] == NamedFor(verb, gs[1..]);
      SizeIsNamed(verb, gs[1..], rs[1..]);
    }
  }

  /** What was given, with the default size. */
  function BoundedMeant(gs: seq<Given>, positional: seq<string>, subject: Field, size: Field, default: nat): BoundedFields {
    BoundedFields(TextGiven(gs, WorkspaceField), SubjectGiven(gs, positional, subject), TextGiven(gs, DirectionField),
                  TextGiven(gs, IncludeInternalField), TextGiven(gs, ProfileField), ItemsGiven(gs, RelationField),
                  Some(NumberGiven(gs, MinCountField).GetOr(1)), Some(NumberGiven(gs, size).GetOr(default)))
  }

  function SubjectGiven(gs: seq<Given>, positional: seq<string>, subject: Field): Option<string> {
    if TextGiven(gs, subject).Some? then TextGiven(gs, subject)
    else if positional != [] then Some(positional[0]) else None
  }

  lemma {:induction false} SubjectReads(gs: seq<Given>, bag: Bag, subject: Field)
    requires AllTyped(gs) && bag.values == ValuesOf(gs) && !MultiValue(subject)
    ensures OneOrFirst(bag, subject) == SubjectGiven(gs, bag.positional, subject)
  {
    OneReads(gs, subject);
  }

  lemma {:induction false} BoundedTexts(gs: seq<Given>, values: Values)
    requires AllTyped(gs) && values == ValuesOf(gs)
    ensures One(values, WorkspaceField) == TextGiven(gs, WorkspaceField)
    ensures One(values, DirectionField) == TextGiven(gs, DirectionField)
    ensures One(values, IncludeInternalField) == TextGiven(gs, IncludeInternalField)
    ensures One(values, ProfileField) == TextGiven(gs, ProfileField)
  {
    OneReads(gs, WorkspaceField);
    OneReads(gs, DirectionField);
    OneReads(gs, IncludeInternalField);
    OneReads(gs, ProfileField);
  }

  lemma {:induction false} BoundedNumbers(gs: seq<Given>, values: Values, size: Field, default: nat)
    requires AllTyped(gs) && values == ValuesOf(gs) && IsNumber(size)
    ensures Many(values, RelationField) == ItemsGiven(gs, RelationField)
    ensures Number(values, MinCountField, 1) == Some(NumberGiven(gs, MinCountField).GetOr(1))
    ensures Number(values, size, default) == Some(NumberGiven(gs, size).GetOr(default))
  {
    ManyReads(gs, RelationField);
    NumberReads(gs, MinCountField, 1);
    NumberReads(gs, size, default);
  }

  lemma {:induction false} BoundedReads(gs: seq<Given>, bag: Bag, values: Values, subject: Field, size: Field, default: nat)
    requires AllTyped(gs) && values == ValuesOf(gs) && bag.values == values && !MultiValue(subject) && IsNumber(size)
    ensures ReadBounded(bag, subject, size, default) == BoundedMeant(gs, bag.positional, subject, size, default)
  {
    BoundedTexts(gs, values);
    BoundedNumbers(gs, values, size, default);
    SubjectReads(gs, bag, subject);
  }

  /** The page that was asked for, unless its cursor does not read. */
  function PageGiven(gs: seq<Given>): Option<Page> {
    var limit, cursor := NumberGiven(gs, LimitField).GetOr(80), TextGiven(gs, CursorField);
    if cursor.None? then Some(Page(None, limit))
    else if ParseCursor(cursor.value).None? then None else Some(Page(ParseCursor(cursor.value), limit))
  }

  lemma {:induction false} PageReads(gs: seq<Given>, values: Values)
    requires AllTyped(gs) && values == ValuesOf(gs)
    ensures ParsePage(values) == PageGiven(gs)
  {
    NumberReads(gs, LimitField, 80);
    OneReads(gs, CursorField);
  }

  /** A limit and the text of a cursor that carries a generation reach the page. */
  lemma {:induction false} PageCarriesCursor(gs: seq<Given>, c: Cursor)
    requires AllTyped(gs) && TextGiven(gs, CursorField) == Some(Paging.CursorText(c))
    requires c.offset < USIZE_BOUND && c.generation.Some? && c.generation.value < USIZE_BOUND
    ensures PageGiven(gs) == Some(Page(Some(c), NumberGiven(gs, LimitField).GetOr(80)))
  {
    Paging.CursorTextSurvives(c);
  }

  /** Verbs whose queries the validator does not constrain: accepted fields make a request with the page given. */
  lemma {:induction false} OtherCarriesPage(verb: Verb, gs: seq<Given>, bag: Bag, consistency: Option<string>)
    requires AllTyped(gs) && bag.values == ValuesOf(gs) && consistency == TextGiven(gs, ConsistencyField)
    requires !TakesBothNames(verb) && verb != GraphPath && verb != GraphCorridor
    ensures ParseRequest(verb, bag) ==
            Assembled(FieldsAccepted(verb, bag), Some(OtherQuery(verb)), consistency, PageGiven(gs))
  {
    NothingRenamed(verb, bag.values);
    OneReads(gs, ConsistencyField);
    PageReads(gs, bag.values);
    ParsedFrom(verb, bag);
  }

  /** `parse_query` on fields under the names the verb knows. */
  lemma {:induction false} ParsedAsNamed(verb: Verb, gs: seq<Given>, rs: seq<Given>, bag: Bag, named: Bag)
    requires AllTyped(gs) && rs == NamedFor(verb, gs)
    requires bag.values == ValuesOf(gs) && named == bag.(values := ValuesOf(rs))
    ensures ParseRequest(verb, bag) == ParseRequest(verb, named) && Renamed(verb, named.values) == named.values && AllTyped(rs)
  {
    RenamedIsNamed(verb, gs, rs);
    RenamedIsFinal(verb, bag.values);
  }

  lemma {:induction false} BoundedParsed(verb: Verb, rs: seq<Given>, named: Bag)
    requires AllTyped(rs) && named.values == ValuesOf(rs) && Renamed(verb, named.values) == named.values
    ensures ParseRequest(verb, named) ==
            Assembled(FieldsAccepted(verb, named), BuildQuery(verb, named), TextGiven(rs, ConsistencyField), PageGiven(rs))
  {
    OneReads(rs, ConsistencyField);
    PageReads(rs, named.values);
    ParsedFrom(verb, named);
  }

  /** The size is the same under either of its names. */
  lemma {:induction false} EitherSizeCounts(verb: Verb, gs: seq<Given>, rs: seq<Given>, positional: seq<string>, subject: Field, default: nat)
    requires TakesBothNames(verb) && rs == NamedFor(verb, gs)
    ensures BoundedMeant(rs, positional, subject, if verb == ChangeContext then MaxItemsField else LimitField, default).size
         == Some(SizeGiven(gs).GetOr(default))
  {
    SizeIsNamed(verb, gs, rs);
  }

  lemma {:induction false} SymbolGraphIsBuilt(bag: Bag)
    ensures BuildQuery(SymbolGraph, bag) == BuildSymbolGraph(ReadBounded(bag, FocusField, LimitField, 40))
  {
    SymbolGraphChosen(bag);
  }

  lemma {:induction false} SymbolGraphChosen(bag: Bag)
    ensures BuildQuery(SymbolGraph, bag) == BuildSymbols(SymbolGraph, bag)
  {
  }

  /** `symbol.graph` carries its focus, from its field or in front, and all its other fields. */
  lemma {:induction false} SymbolGraphCarriesFields(rs: seq<Given>, bag: Bag)
    requires AllTyped(rs) && bag.values == ValuesOf(rs) && Renamed(SymbolGraph, bag.values) == bag.values
    ensures ParseRequest(SymbolGraph, bag) ==
            Assembled(FieldsAccepted(SymbolGraph, bag),
                      BuildSymbolGraph(BoundedMeant(rs, bag.positional, FocusField, LimitField, 40)),
                      TextGiven(rs, ConsistencyField), PageGiven(rs))
  {
    BoundedReads(rs, bag, bag.values, FocusField, LimitField, 40);
    SymbolGraphIsBuilt(bag);
    BoundedParsed(SymbolGraph, rs, bag);
  }

  lemma {:induction false} IdentityChildrenIsBuilt(bag: Bag)
    ensures BuildQuery(IdentityChildren, bag) == BuildIdentityChildren(ReadBounded(bag, PrefixField, LimitField, 80))
  {
    IdentityChildrenChosen(bag);
  }

  lemma {:induction false} IdentityChildrenChosen(bag: Bag)
    ensures BuildQuery(IdentityChildren, bag) == BuildIdentities(IdentityChildren, bag)
  {
  }

  lemma {:induction false} IdentityChildrenCarriesFields(rs: seq<Given>, bag: Bag)
    requires AllTyped(rs) && bag.values == ValuesOf(rs) && Renamed(IdentityChildren, bag.values) == bag.values
    ensures ParseRequest(IdentityChildren, bag) ==
            Assembled(FieldsAccepted(IdentityChildren, bag),
                      BuildIdentityChildren(BoundedMeant(rs, bag.positional, PrefixField, LimitField, 80)),
                      TextGiven(rs, ConsistencyField), PageGiven(rs))
  {
    BoundedReads(rs, bag, bag.values, PrefixField, LimitField, 80);
    IdentityChildrenIsBuilt(bag);
    BoundedParsed(IdentityChildren, rs, bag);
  }

  lemma {:induction false} ChangeContextIsBuilt(bag: Bag)
    ensures BuildQuery(ChangeContext, bag) == BuildChangeContext(ReadBounded(bag, FocusField, MaxItemsField, 20))
  {
    ChangeContextChosen(bag);
  }

  lemma {:induction false} ChangeContextChosen(bag: Bag)
    ensures BuildQuery(ChangeContext, bag) == BuildContext(ChangeContext, bag)
  {
  }

  lemma {:induction false} ChangeContextCarriesFields(rs: seq<Given>, bag: Bag)
    requires AllTyped(rs) && bag.values == ValuesOf(rs) && Renamed(ChangeContext, bag.values) == bag.values
    ensures ParseRequest(ChangeContext, bag) ==
            Assembled(FieldsAccepted(ChangeContext, bag),
                      BuildChangeContext(BoundedMeant(rs, bag.positional, FocusField, MaxItemsField, 20)),
                      TextGiven(rs, ConsistencyField), PageGiven(rs))
  {
    BoundedReads(rs, bag, bag.values, FocusField, MaxItemsField, 20);
    ChangeContextIsBuilt(bag);
    BoundedParsed(ChangeContext, rs, bag);
  }

  /** The bounded builders accept exactly what the direct validator accepts, and carry it unchanged. */
  lemma {:induction false} BoundedBuilders(f: BoundedFields, consistency: string, page: Page)
    requires f.count.Some? && f.size.Some?
    ensures BuildSymbolGraph(f) ==
            if f.subject.Some? && OneOf(f.internal, BOOLEANS) && OneOf(f.direction, DIRECTIONS) && 1 <= f.size.value <= 500
            then Some(SymbolGraphQuery(f.workspace, f.subject.value, f.direction.GetOr("both"), f.relation,
                                       if f.count.value == 0 then 1 else f.count.value, f.internal != Some("false"),
                                       f.size.value))
            else None
    ensures BuildIdentityChildren(f) ==
            if 1 <= f.size.value <= 500 then Some(IdentityChildrenQuery(f.workspace, f.subject.GetOr(""), f.size.value))
            else None
    ensures BuildChangeContext(f) ==
            if f.subject.Some? && 1 <= f.size.value <= 100
            then Some(ChangeContextQuery(f.workspace, f.subject.value, f.profile, f.size.value)) else None
    ensures RequestValid(Request(IdentityChildrenQuery(f.workspace, "", f.size.value), consistency, page)) <==>
            1 <= f.size.value <= 500
    ensures RequestValid(Request(ChangeContextQuery(f.workspace, "", f.profile, f.size.value), consistency, page)) <==>
            1 <= f.size.value <= 100
    ensures RequestValid(Request(SymbolGraphQuery(f.workspace, "", "", f.relation, 1, true, f.size.value), consistency, page)) <==>
            1 <= f.size.value <= 500
  {
  }

  /** Which fields the bounded queries accept. */
  predicate BoundedAccepted(rs: seq<Given>, positional: seq<string>, keys: set<Field>, subject: Field, required: bool) {
    && AllIn(rs, keys) && NoConflict(rs) && |positional| <= 1
    && (positional != [] && TextGiven(rs, subject).Some? ==> TextGiven(rs, subject).value == positional[0])
    && (required ==> TextGiven(rs, subject).Some? || positional != [])
  }

  lemma {:induction false} SymbolGraphSpec(key: Field)
    ensures FieldAllowed(SymbolGraph, key) <==> key in SYMBOL_GRAPH_KEYS
  {
  }

  lemma {:induction false} IdentityChildrenSpec(key: Field)
    ensures FieldAllowed(IdentityChildren, key) <==> key in IDENTITY_CHILDREN_KEYS
  {
  }

  lemma {:induction false} ChangeContextSpec(key: Field)
    ensures FieldAllowed(ChangeContext, key) <==> key in CHANGE_CONTEXT_KEYS
  {
  }

  /** What `validate_fields` asks for, for a verb with a subject that may come first without a key. */
  lemma {:induction false} SubjectAccepted(verb: Verb, rs: seq<Given>, bag: Bag, subject: Field, required: bool)
    requires AllTyped(rs) && bag.values == ValuesOf(rs) && bag.projection == [] && !MultiValue(subject)
    requires PositionalField(verb) == Some(subject) && TakesPositional(verb)
    requires RequiredFields(verb) == if required then [subject] else []
    ensures FieldsAccepted(verb, bag) <==>
            && AllAllowed(verb, rs) && NoConflict(rs) && |bag.positional| <= 1
            && (bag.positional != [] && TextGiven(rs, subject).Some? ==> TextGiven(rs, subject).value == bag.positional[0])
            && (required ==> TextGiven(rs, subject).Some? || bag.positional != [])
  {
    ValuesAcceptedIff(verb, rs);
    OneReads(rs, subject);
    var fields := RequiredFields(verb);
    assert required ==> |fields| == 1 && fields[0] == subject;
  }

  lemma {:induction false} SymbolGraphAllowed(rs: seq<Given>)
    ensures AllAllowed(SymbolGraph, rs) <==> AllIn(rs, SYMBOL_GRAPH_KEYS)
  {
    forall i | 0 <= i < |rs|
      ensures FieldAllowed(SymbolGraph, rs[i].key) <==> rs[i].key in SYMBOL_GRAPH_KEYS
    {
      SymbolGraphSpec(rs[i].key);
    }
  }

  lemma {:induction false} SymbolGraphFieldsAccepted(rs: seq<Given>, bag: Bag)
    requires AllTyped(rs) && bag.values == ValuesOf(rs) && bag.projection == []
    ensures FieldsAccepted(SymbolGraph, bag) <==> BoundedAccepted(rs, bag.positional, SYMBOL_GRAPH_KEYS, FocusField, true)
  {
    SymbolGraphAllowed(rs);
    SubjectAccepted(SymbolGraph, rs, bag, FocusField, true);
  }

  lemma {:induction false} IdentityChildrenAllowed(rs: seq<Given>)
    ensures AllAllowed(IdentityChildren, rs) <==> AllIn(rs, IDENTITY_CHILDREN_KEYS)
  {
    forall i | 0 <= i < |rs|
      ensures FieldAllowed(IdentityChildren, rs[i].key) <==> rs[i].key in IDENTITY_CHILDREN_KEYS
    {
      IdentityChildrenSpec(rs[i].key);
    }
  }

  lemma {:induction false} IdentityChildrenFieldsAccepted(rs: seq<Given>, bag: Bag)
    requires AllTyped(rs) && bag.values == ValuesOf(rs) && bag.projection == []
    ensures FieldsAccepted(IdentityChildren, bag) <==> BoundedAccepted(rs, bag.positional, IDENTITY_CHILDREN_KEYS, PrefixField, false)
  {
    IdentityChildrenAllowed(rs);
    SubjectAccepted(IdentityChildren, rs, bag, PrefixField, false);
  }

  lemma {:induction false} ChangeContextAllowed(rs: seq<Given>)
    ensures AllAllowed(ChangeContext, rs) <==> AllIn(rs, CHANGE_CONTEXT_KEYS)
  {
    forall i | 0 <= i < |rs|
      ensures FieldAllowed(ChangeContext, rs[i].key) <==> rs[i].key in CHANGE_CONTEXT_KEYS
    {
      ChangeContextSpec(rs[i].key);
    }
  }

  lemma {:induction false} ChangeContextFieldsAccepted(rs: seq<Given>, bag: Bag)
    requires AllTyped(rs) && bag.values == ValuesOf(rs) && bag.projection == []
    ensures FieldsAccepted(ChangeContext, bag) <==> BoundedAccepted(rs, bag.positional, CHANGE_CONTEXT_KEYS, FocusField, true)
  {
    ChangeContextAllowed(rs);
    SubjectAccepted(ChangeContext, rs, bag, FocusField, true);
  }
}
