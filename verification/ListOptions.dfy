/**
  List options: each contributes label requirements to an accumulator, the space filter adds the
  authorized spaces, and the API server returns the objects that meet all requirements.
 */
module ListOptions {
  import opened Common
  import opened Numbers

  const SPACE_GUID_LABEL := "korifi.cloudfoundry.org/space-guid"

  type Labels = map<string, string>

  // ---------------------------------------------------------------- label selectors

  datatype Operator = Equals | DoubleEquals | NotEquals | In | NotIn | Exists | DoesNotExist | GreaterThan | LessThan

  datatype Requirement = Requirement(key: string, op: Operator, values: seq<string>)

  /** What the API machinery accepts as label keys and values. */
  datatype Syntax = Syntax(validKey: string -> bool, validValue: string -> bool)

  datatype Error = InvalidRequirement | InvalidOption | NotAuthenticated

  function NewRequirement(syntax: Syntax, key: string, op: Operator, values: seq<string>): Result<Requirement, Error> {
    if (match op
        case In => values == []
        case NotIn => values == []
        case Exists => values != []
        case DoesNotExist => values != []
        case GreaterThan => |values| != 1 || Atoi(values[0]).None?
        case LessThan => |values| != 1 || Atoi(values[0]).None?
        case _ => |values| != 1)
       || !syntax.validKey(key)
       || exists i :: 0 <= i < |values| && !syntax.validValue(values[i])
    then Err(InvalidRequirement)
    else Ok(Requirement(key, op, values))
  }

  predicate Meets(labels: Labels, r: Requirement) {
    match r.op
    case Equals => r.key in labels && labels[r.key] in r.values
    case DoubleEquals => r.key in labels && labels[r.key] in r.values
    case In => r.key in labels && labels[r.key] in r.values
    case NotEquals => r.key !in labels || labels[r.key] !in r.values
    case NotIn => r.key !in labels || labels[r.key] !in r.values
    case Exists => r.key in labels
    case DoesNotExist => r.key !in labels
    case GreaterThan => Compares(labels, r, (x: int, bound: int) => x > bound)
    case LessThan => Compares(labels, r, (x: int, bound: int) => x < bound)
  }

  /** A label and a single value that are both numbers, as `holds` compares them. */
  predicate Compares(labels: Labels, r: Requirement, holds: (int, int) -> bool) {
    && r.key in labels && |r.values| == 1
    && Atoi(labels[r.key]).Some? && Atoi(r.values[0]).Some?
    && holds(Atoi(labels[r.key]).value, Atoi(r.values[0]).value)
  }

  predicate MeetsAll(labels: Labels, rs: seq<Requirement>) {
    forall i :: 0 <= i < |rs| ==> Meets(labels, rs[i])
  }

  /** The operators of a parsed selector, told by those that the options use and by the numbers they compare. */
  lemma OperatorMeaning(labels: Labels, key: string, values: seq<string>)
    ensures Meets(labels, Requirement(key, In, values)) <==> key in labels && labels[key] in values
    ensures Meets(labels, Requirement(key, NotIn, values)) <==> !Meets(labels, Requirement(key, In, values))
    ensures Meets(labels, Requirement(key, Exists, values)) <==> key in labels
    ensures Meets(labels, Requirement(key, DoesNotExist, values)) <==> key !in labels
    ensures forall v :: Meets(labels, Requirement(key, Equals, [v])) <==> key in labels && labels[key] == v
    ensures forall v :: Meets(labels, Requirement(key, DoubleEquals, [v])) <==> key in labels && labels[key] == v
    ensures forall v :: Meets(labels, Requirement(key, NotEquals, [v])) <==> key !in labels || labels[key] != v
  {
    forall v: string ensures forall x: string :: x in [v] <==> x == v {
      assert [v][0] == v;
    }
  }

  lemma ComparedNumbers(labels: Labels, key: string, bound: string, x: int, n: int)
    requires key in labels && Atoi(labels[key]) == Some(x) && Atoi(bound) == Some(n)
    ensures Meets(labels, Requirement(key, GreaterThan, [bound])) <==> x > n
    ensures Meets(labels, Requirement(key, LessThan, [bound])) <==> x < n
  {
  }

  lemma ComparisonMeaning(labels: Labels, key: string, bound: string, x: int, n: int)
    requires key in labels && Spells(labels[key], x) && Spells(bound, n) && IsInt64(x) && IsInt64(n)
    ensures Meets(labels, Requirement(key, GreaterThan, [bound])) <==> x > n
    ensures Meets(labels, Requirement(key, LessThan, [bound])) <==> x < n
  {
    AtoiIff(labels[key], x);
    AtoiIff(bound, n);
    ComparedNumbers(labels, key, bound, x, n);
  }

  /** How many values an operator takes, and a bound has to spell a number of 64 bits. */
  ghost predicate ValuesFit(op: Operator, values: seq<string>) {
    && (op in {In, NotIn} ==> values != [])
    && (op in {Exists, DoesNotExist} ==> values == [])
    && (op in {Equals, DoubleEquals, NotEquals} ==> |values| == 1)
    && (op in {GreaterThan, LessThan} ==> |values| == 1 && SpellsInt64(values[0]))
  }

  /** What the library accepts, as it is. */
  lemma RequirementIsAcceptedIff(syntax: Syntax, key: string, op: Operator, values: seq<string>)
    ensures NewRequirement(syntax, key, op, values).Ok? <==>
            syntax.validKey(key) && (forall v :: v in values ==> syntax.validValue(v)) && ValuesFit(op, values)
    ensures NewRequirement(syntax, key, op, values).Ok? ==>
      NewRequirement(syntax, key, op, values).value == Requirement(key, op, values)
  {
    if |values| == 1 {
      AtoiReadsIff(values[0]);
    }
    AllValid(syntax, values);
  }

  lemma AllValid(syntax: Syntax, values: seq<string>)
    ensures (forall v :: v in values ==> syntax.validValue(v)) <==>
            !exists i :: 0 <= i < |values| && !syntax.validValue(values[i])
  {
    assert forall i :: 0 <= i < |values| ==> values[i] in values;
  }

  /** A selector, or nil. */
  type Selector = Option<seq<Requirement>>

  predicate Selects(s: Selector, labels: Labels) {
    s.None? || MeetsAll(labels, s.value)
  }

  const MATCH_NOTHING: seq<Requirement> :=
    [Requirement("whatever", Exists, []), Requirement("whatever", DoesNotExist, [])]

  lemma MatchNothingMatchesNothing(labels: Labels, rs: seq<Requirement>, more: seq<Requirement>)
    ensures !MeetsAll(labels, rs + MATCH_NOTHING + more)
  {
    var all := rs + MATCH_NOTHING + more;
    assert all[|rs|] == MATCH_NOTHING[0] && all[|rs| + 1] == MATCH_NOTHING[1];
  }

  // ---------------------------------------------------------------- options

  datatype ListOption =
    | LabelOpt(key: string, value: string)
    | LabelIn(key: string, values: seq<string>)
    | LabelExists(key: string)
    | LabelSelector(parsed: Option<seq<Requirement>>)
    | InNamespace(namespace: string)
    | MatchingFields(fields: Labels)
    | FilterOpt(filterBy: string)
    | SortOpt(column: string, desc: bool)
    | PagingOpt(pageSize: int, pageNumber: int)
    | Nothing
    | Noop
    | Erroring

  function WithLabel(key: string, value: string): ListOption {
    LabelOpt(key, value)
  }

  function WithLabelIn(key: string, values: seq<string>): ListOption {
    LabelIn(key, values)
  }

  function WithLabelStrictlyIn(key: string, values: seq<string>): ListOption {
    if |values| == 0 then Nothing else WithLabelIn(key, values)
  }

  /** The requirement, if any, that an option adds. */
  function Contribution(syntax: Syntax, o: ListOption): Result<seq<Requirement>, Error> {
    match o
    case LabelOpt(key, value) => Single(NewRequirement(syntax, key, Equals, [value]))
    case LabelIn(key, values) => if |values| == 0 then Ok([]) else Single(NewRequirement(syntax, key, In, values))
    case LabelExists(key) => Single(NewRequirement(syntax, key, Exists, []))
    case LabelSelector(parsed) => if parsed.None? then Err(InvalidOption) else Ok(parsed.value)
    case Nothing => Ok(MATCH_NOTHING)
    case Erroring => Err(InvalidOption)
    case _ => Ok([])
  }

  function Single(r: Result<Requirement, Error>): Result<seq<Requirement>, Error> {
    if r.Err? then Err(r.error) else Ok([r.value])
  }

  /** The accumulator that options are applied to. */
  datatype Options = Options(
    namespace: string,
    fieldSelector: Option<Labels>,
    requirements: seq<Requirement>,
    sort: Option<ListOption>,
    filter: Option<ListOption>,
    paging: Option<ListOption>)

  const NO_OPTIONS := Options("", None, [], None, None, None)

  class Accumulator {
    var namespace: string
    var fieldSelector: Option<Labels>
    var requirements: seq<Requirement>
    var sort: Option<ListOption>
    var filter: Option<ListOption>
    var paging: Option<ListOption>

    constructor ()
      ensures Value() == NO_OPTIONS
    {
      namespace, fieldSelector, requirements, sort, filter, paging := "", None, [], None, None, None;
    }

    function Value(): Options
      reads this
    {
      Options(namespace, fieldSelector, requirements, sort, filter, paging)
    }

    /** An option that fails leaves the accumulator alone. */
    method ApplyToList(syntax: Syntax, o: ListOption) returns (err: Option<Error>)
      modifies this
      ensures
        var applied := Apply(syntax, old(Value()), o);
        if applied.Err? then err == Some(applied.error) && Value() == old(Value())
          else err.None? && Value() == applied.value
    {
      err := None;
      match o
      case LabelOpt(key, value) =>
        var req := NewRequirement(syntax, key, Equals, [value]);
        if req.Err? {
          return Some(req.error);
        }
        requirements := requirements + [req.value];
      case LabelIn(key, values) =>
        if |values| == 0 {
          assert requirements + [] == requirements;
          return;
        }
        var req := NewRequirement(syntax, key, In, values);
        if req.Err? {
          return Some(req.error);
        }
        requirements := requirements + [req.value];
      case LabelExists(key) =>
        var req := NewRequirement(syntax, key, Exists, []);
        if req.Err? {
          return Some(req.error);
        }
        requirements := requirements + [req.value];
      case LabelSelector(parsed) =>
        if parsed.None? {
          return Some(InvalidOption);
        }
        requirements := requirements + parsed.value;
      case InNamespace(ns) => namespace := ns; assert requirements + [] == requirements;
      case MatchingFields(fields) => fieldSelector := Some(fields); assert requirements + [] == requirements;
      case FilterOpt(_) => filter := Some(o); assert requirements + [] == requirements;
      case SortOpt(_, _) => sort := Some(o); assert requirements + [] == requirements;
      case PagingOpt(_, _) => paging := Some(o); assert requirements + [] == requirements;
      case Nothing => requirements := requirements + MATCH_NOTHING;
      case Noop => assert requirements + [] == requirements;
      case Erroring => err := Some(InvalidOption);
    }
  }

  function Apply(syntax: Syntax, opts: Options, o: ListOption): Result<Options, Error> {
    var c := Contribution(syntax, o);
    if c.Err? then Err(c.error)
    else Ok(Options(
              if o.InNamespace? then o.namespace else opts.namespace,
              if o.MatchingFields? then Some(o.fields) else opts.fieldSelector,
              opts.requirements + c.value,
              if o.SortOpt? then Some(o) else opts.sort,
              if o.FilterOpt? then Some(o) else opts.filter,
              if o.PagingOpt? then Some(o) else opts.paging))
  }

  function Unpack(syntax: Syntax, os: seq<ListOption>): Result<Options, Error> {
    if os == [] then Ok(NO_OPTIONS)
    else
      var before := Unpack(syntax, os[..|os| - 1]);
      if before.Err? then before else Apply(syntax, before.value, os[|os| - 1])
  }

  method UnpackListOptions(syntax: Syntax, os: seq<ListOption>) returns (r: Result<Options, Error>)
    ensures r == Unpack(syntax, os)
  {
    var acc := new Accumulator();
    for i := 0 to |os|
      invariant Unpack(syntax, os[..i]) == Ok(acc.Value())
    {
      assert os[..i + 1][..i] == os[..i];
      var err := acc.ApplyToList(syntax, os[i]);
      if err.Some? {
        UnpackErrs(syntax, os, i + 1);
        return Err(err.value);
      }
    }
    assert os[..|os|] == os;
    return Ok(acc.Value());
  }

  lemma {:induction false} UnpackErrs(syntax: Syntax, os: seq<ListOption>, n: nat)
    requires n <= |os| && Unpack(syntax, os[..n]).Err?
    ensures Unpack(syntax, os) == Unpack(syntax, os[..n])
    decreases |os| - n
  {
    if n == |os| {
      assert os[..n] == os;
    } else {
      assert os[..n + 1][..n] == os[..n];
      UnpackErrs(syntax, os, n + 1);
    }
  }

  // ---------------------------------------------------------------- meaning

  predicate Well(syntax: Syntax, o: ListOption) {
    match o
    case LabelOpt(key, value) => syntax.validKey(key) && syntax.validValue(value)
    case LabelIn(key, values) => values == [] ||
      (syntax.validKey(key) && forall i :: 0 <= i < |values| ==> syntax.validValue(values[i]))
    case LabelExists(key) => syntax.validKey(key)
    case LabelSelector(parsed) => parsed.Some?
    case Erroring => false
    case _ => true
  }

  /** What an option asks of the labels of an object. */
  predicate Asks(o: ListOption, labels: Labels) {
    match o
    case LabelOpt(key, value) => key in labels && labels[key] == value
    case LabelIn(key, values) => values == [] || (key in labels && labels[key] in values)
    case LabelExists(key) => key in labels
    case LabelSelector(parsed) => parsed.Some? ==> MeetsAll(labels, parsed.value)
    case Nothing => false
    case _ => true
  }

  lemma ContributionMeaning(syntax: Syntax, o: ListOption, labels: Labels)
    ensures Contribution(syntax, o).Ok? <==> Well(syntax, o)
    ensures Contribution(syntax, o).Ok? ==> (MeetsAll(labels, Contribution(syntax, o).value) <==> Asks(o, labels))
  {
    if o.Nothing? {
      MatchNothingMatchesNothing(labels, [], []);
      assert [] + MATCH_NOTHING + [] == MATCH_NOTHING;
    } else {
      assert o.LabelOpt? ==> [o.value][0] == o.value;
      if Contribution(syntax, o).Ok? && !o.LabelSelector? {
        var rs := Contribution(syntax, o).value;
        assert |rs| == 1 ==> (MeetsAll(labels, rs) <==> Meets(labels, rs[0]));
      }
    }
  }

  /** An empty list is no restriction, unless it is meant strictly: then it is one like any other. */
  lemma OptionsAsk(key: string, value: string, values: seq<string>, labels: Labels)
    ensures Asks(WithLabel(key, value), labels) <==> key in labels && labels[key] == value
    ensures Asks(WithLabelIn(key, values), labels) <==> values == [] || (key in labels && labels[key] in values)
    ensures Asks(WithLabelStrictlyIn(key, values), labels) <==> key in labels && labels[key] in values
  {
  }

  lemma MeetsAllConcat(labels: Labels, a: seq<Requirement>, b: seq<Requirement>)
    ensures MeetsAll(labels, a + b) <==> MeetsAll(labels, a) && MeetsAll(labels, b)
  {
    if MeetsAll(labels, a + b) {
      assert forall i :: 0 <= i < |a| ==> a[i] == (a + b)[i];
      assert forall i :: 0 <= i < |b| ==> b[i] == (a + b)[|a| + i];
    }
  }

  predicate AsksAll(os: seq<ListOption>, labels: Labels) {
    forall o :: o in os ==> Asks(o, labels)
  }

  /** Options are accepted exactly when each is well formed, and then ask together what each asks alone. */
  lemma {:induction false} UnpackMeaning(syntax: Syntax, os: seq<ListOption>, labels: Labels)
    ensures Unpack(syntax, os).Ok? <==> forall o :: o in os ==> Well(syntax, o)
    ensures Unpack(syntax, os).Ok? ==>
      (MeetsAll(labels, Unpack(syntax, os).value.requirements) <==> AsksAll(os, labels))
  {
    if os != [] {
      var n := |os| - 1;
      UnpackMeaning(syntax, os[..n], labels);
      ContributionMeaning(syntax, os[n], labels);
      assert os == os[..n] + [os[n]];
      if Unpack(syntax, os).Ok? {
        MeetsAllConcat(labels, Unpack(syntax, os[..n]).value.requirements, Contribution(syntax, os[n]).value);
      }
    }
  }

  /** The last option of a kind. */
  function Last(os: seq<ListOption>, kind: ListOption -> bool): (last: Option<ListOption>)
    ensures last.None? ==> forall o :: o in os ==> !kind(o)
    ensures last.Some? ==> kind(last.value)
    ensures last.Some? ==> exists i :: 0 <= i < |os| && os[i] == last.value && forall j :: i < j < |os| ==> !kind(os[j])
  {
    if os == [] then None
    else
      var n := |os| - 1;
      assert os == os[..n] + [os[n]];
      if kind(os[n]) then Some(os[n]) else Last(os[..n], kind)
  }

  predicate OfNamespace(o: ListOption) {
    o.InNamespace?
  }

  predicate OfFields(o: ListOption) {
    o.MatchingFields?
  }

  predicate OfSort(o: ListOption) {
    o.SortOpt?
  }

  predicate OfFilter(o: ListOption) {
    o.FilterOpt?
  }

  predicate OfPaging(o: ListOption) {
    o.PagingOpt?
  }

  function NamespaceAsked(os: seq<ListOption>): string {
    var last := Last(os, OfNamespace);
    if last.Some? then last.value.namespace else ""
  }

  function FieldsAsked(os: seq<ListOption>): Option<Labels> {
    var last := Last(os, OfFields);
    if last.Some? then Some(last.value.fields) else None
  }

  /** Of the options that set one thing, the last one counts; the others do not touch it. */
  lemma {:induction false} LastOptionCounts(syntax: Syntax, os: seq<ListOption>)
    requires Unpack(syntax, os).Ok?
    ensures
      var opts := Unpack(syntax, os).value;
      && opts.namespace == NamespaceAsked(os) && opts.fieldSelector == FieldsAsked(os)
      && opts.sort == Last(os, OfSort) && opts.filter == Last(os, OfFilter) && opts.paging == Last(os, OfPaging)
  {
    if os != [] {
      LastOptionCounts(syntax, os[..|os| - 1]);
    }
  }

  // ---------------------------------------------------------------- client options and the space filter

  datatype ClientOptions = ClientOptions(namespace: string, fieldSelector: Option<Labels>, selector: Selector)

  function NewLabelSelector(rs: seq<Requirement>): Selector {
    if |rs| == 0 then None else Some(rs)
  }

  function AsClientListOptions(o: Options): ClientOptions {
    ClientOptions(o.namespace, o.fieldSelector, NewLabelSelector(o.requirements))
  }

  /** What the API server sees of an object. */
  datatype Listed = Listed(namespace: string, labels: Labels, fields: Labels)

  predicate FieldsMatch(selector: Option<Labels>, fields: Labels) {
    selector.Some? ==> forall k :: k in selector.value ==> k in fields && fields[k] == selector.value[k]
  }

  /** Whether the API server returns an object. */
  predicate Returned(opts: ClientOptions, o: Listed) {
    (opts.namespace == "" || opts.namespace == o.namespace) && FieldsMatch(opts.fieldSelector, o.fields) &&
      Selects(opts.selector, o.labels)
  }

  predicate InSpaces(labels: Labels, namespaces: seq<string>) {
    SPACE_GUID_LABEL in labels && labels[SPACE_GUID_LABEL] in namespaces
  }

  /** The authorized spaces are known, and can be asked for. */
  predicate SpacesUsable(syntax: Syntax, namespaces: Result<seq<string>, Error>) {
    namespaces.Ok? &&
      (namespaces.value == [] ||
        (syntax.validKey(SPACE_GUID_LABEL) && forall n :: n in namespaces.value ==> syntax.validValue(n)))
  }

  lemma SpaceSelectorMeaning(syntax: Syntax, user: Selector, namespaces: Result<seq<string>, Error>, labels: Labels)
    ensures SpaceSelector(syntax, user, namespaces).Ok? <==> SpacesUsable(syntax, namespaces)
    ensures SpaceSelector(syntax, user, namespaces).Ok? ==>
      (Selects(SpaceSelector(syntax, user, namespaces).value, labels) <==>
        InSpaces(labels, namespaces.value) && Selects(user, labels))
  {
    if namespaces.Ok? && namespaces.value == [] {
      MatchNothingMatchesNothing(labels, [], []);
      assert [] + MATCH_NOTHING + [] == MATCH_NOTHING;
    } else if SpaceSelector(syntax, user, namespaces).Ok? {
      var inSpaces := [Requirement(SPACE_GUID_LABEL, In, namespaces.value)];
      assert MeetsAll(labels, inSpaces) <==> Meets(labels, inSpaces[0]);
      MeetsAllConcat(labels, inSpaces, if user.Some? then user.value else []);
    }
  }

  /** `namespaces` are the authorized spaces in the order a map yields them. */
  method BuildLabelSelector(syntax: Syntax, opts: ClientOptions, namespaces: Result<seq<string>, Error>)
    returns (r: Result<Selector, Error>)
    ensures r.Ok? <==> SpacesUsable(syntax, namespaces)
    ensures r.Ok? ==> forall labels :: Selects(r.value, labels) <==>
      InSpaces(labels, namespaces.value) && Selects(opts.selector, labels)
    ensures r == SpaceSelector(syntax, opts.selector, namespaces)
  {
    forall labels
      ensures SpaceSelector(syntax, opts.selector, namespaces).Ok? <==> SpacesUsable(syntax, namespaces)
      ensures SpaceSelector(syntax, opts.selector, namespaces).Ok? ==>
        (Selects(SpaceSelector(syntax, opts.selector, namespaces).value, labels) <==>
          InSpaces(labels, namespaces.value) && Selects(opts.selector, labels))
    {
      SpaceSelectorMeaning(syntax, opts.selector, namespaces, labels);
    }
    if namespaces.Err? {
      return Err(namespaces.error);
    }
    if |namespaces.value| == 0 {
      return Ok(Some(MATCH_NOTHING));
    }
    var requirement := NewRequirement(syntax, SPACE_GUID_LABEL, In, namespaces.value);
    if requirement.Err? {
      return Err(requirement.error);
    }
    var selector := [requirement.value];
    if opts.selector.Some? {
      selector := selector + opts.selector.value;
    }
    assert [requirement.value] + [] == [requirement.value];
    return Ok(Some(selector));
  }

  function SpaceSelector(syntax: Syntax, user: Selector,
                         namespaces: Result<seq<string>, Error>): Result<Selector, Error>
  {
    if namespaces.Err? then Err(namespaces.error)
    else if namespaces.value == [] then Ok(Some(MATCH_NOTHING))
    else
      var requirement := NewRequirement(syntax, SPACE_GUID_LABEL, In, namespaces.value);
      if requirement.Err? then Err(requirement.error)
      else Ok(Some([requirement.value] + if user.Some? then user.value else []))
  }

  /** SpaceFilteringOpts.Apply: a list in a namespace is left alone, any other is confined to the authorized spaces. */
  method ApplySpaceFilter(syntax: Syntax, opts: ClientOptions, namespaces: Result<seq<string>, Error>)
    returns (r: Result<ClientOptions, Error>)
    ensures r.Ok? <==> opts.namespace != "" || SpacesUsable(syntax, namespaces)
    ensures r.Ok? ==> forall o :: Returned(r.value, o) <==>
      Returned(opts, o) && (opts.namespace != "" || InSpaces(o.labels, namespaces.value))
    ensures r == SpaceFiltered(syntax, opts, namespaces)
  {
    var effective := opts;
    if effective.namespace != "" {
      return Ok(effective);
    }
    var selector := BuildLabelSelector(syntax, effective, namespaces);
    if selector.Err? {
      return Err(selector.error);
    }
    effective := effective.(selector := selector.value);
    return Ok(effective);
  }

  function SpaceFiltered(syntax: Syntax, opts: ClientOptions,
                         namespaces: Result<seq<string>, Error>): Result<ClientOptions, Error>
  {
    if opts.namespace != "" then Ok(opts)
    else
      var selector := SpaceSelector(syntax, opts.selector, namespaces);
      if selector.Err? then Err(selector.error) else Ok(opts.(selector := selector.value))
  }

  /** The options that the API server is sent for a space-scoped list. */
  function SpaceScoped(syntax: Syntax, os: seq<ListOption>,
                       namespaces: Result<seq<string>, Error>): Result<ClientOptions, Error>
  {
    var unpacked := Unpack(syntax, os);
    if unpacked.Err? then Err(unpacked.error)
      else SpaceFiltered(syntax, AsClientListOptions(unpacked.value), namespaces)
  }

  /**
    A space-scoped list returns, of any population of objects, exactly those in an authorized space that
    every option asks for; with a namespace, exactly those in the namespace that every option asks for.
   */
  lemma SpaceScopedListIsExact(syntax: Syntax, os: seq<ListOption>, namespaces: Result<seq<string>, Error>, o: Listed)
    requires SpaceScoped(syntax, os, namespaces).Ok?
    ensures
      Returned(SpaceScoped(syntax, os, namespaces).value, o) <==>
      && AsksAll(os, o.labels)
      && (var asked := FieldsAsked(os);
          asked.Some? ==> forall k :: k in asked.value ==> k in o.fields && o.fields[k] == asked.value[k])
      && if NamespaceAsked(os) != "" then o.namespace == NamespaceAsked(os)
        else namespaces.Ok? && InSpaces(o.labels, namespaces.value)
  {
    UnpackMeaning(syntax, os, o.labels);
    LastOptionCounts(syntax, os);
    var asked := AsClientListOptions(Unpack(syntax, os).value);
    assert Selects(asked.selector, o.labels) <==> AsksAll(os, o.labels);
    SpaceSelectorMeaning(syntax, asked.selector, namespaces, o.labels);
  }

  /** Exactly when a space-scoped list is refused. */
  lemma SpaceScopedListFailsIff(syntax: Syntax, os: seq<ListOption>, namespaces: Result<seq<string>, Error>)
    ensures SpaceScoped(syntax, os, namespaces).Ok? <==>
            (forall o :: o in os ==> Well(syntax, o)) && (NamespaceAsked(os) != "" || SpacesUsable(syntax, namespaces))
  {
    UnpackMeaning(syntax, os, map[]);
    if Unpack(syntax, os).Ok? {
      LastOptionCounts(syntax, os);
      SpaceSelectorMeaning(syntax, AsClientListOptions(Unpack(syntax, os).value).selector, namespaces, map[]);
    }
  }

  /** Only labels are asked for, and how to present what is found. */
  predicate Unconfined(os: seq<ListOption>) {
    forall o :: o in os ==> !o.InNamespace? && !o.MatchingFields?
  }

  lemma UnconfinedHasNoNamespace(os: seq<ListOption>)
    requires Unconfined(os)
    ensures NamespaceAsked(os) == "" && FieldsAsked(os).None?
  {
  }

  /** The order and number of occurrences of label options are irrelevant: to being refused and to what is returned. */
  lemma OrderIsIrrelevant(syntax: Syntax, os: seq<ListOption>, ps: seq<ListOption>,
                          namespaces: Result<seq<string>, Error>, o: Listed)
    requires forall o :: o in os <==> o in ps
    requires Unconfined(os)
    ensures SpaceScoped(syntax, os, namespaces).Ok? <==> SpaceScoped(syntax, ps, namespaces).Ok?
    ensures SpaceScoped(syntax, os, namespaces).Ok? ==>
              (Returned(SpaceScoped(syntax, os, namespaces).value, o) <==>
                Returned(SpaceScoped(syntax, ps, namespaces).value, o))
  {
    SpaceScopedListFailsIff(syntax, os, namespaces);
    SpaceScopedListFailsIff(syntax, ps, namespaces);
    UnconfinedHasNoNamespace(os);
    UnconfinedHasNoNamespace(ps);
    if SpaceScoped(syntax, os, namespaces).Ok? {
      SpaceScopedListIsExact(syntax, os, namespaces, o);
      SpaceScopedListIsExact(syntax, ps, namespaces, o);
    }
  }

  /** One more option that only asks for labels. */
  lemma OneMoreLabelOption(syntax: Syntax, os: seq<ListOption>, p: ListOption, namespaces: Result<seq<string>, Error>,
                           o: Listed)
    requires SpaceScoped(syntax, os, namespaces).Ok? && Well(syntax, p) && Unconfined([p])
    ensures
      var more := SpaceScoped(syntax, os + [p], namespaces);
      more.Ok? && (Returned(more.value, o) <==>
        Returned(SpaceScoped(syntax, os, namespaces).value, o) && Asks(p, o.labels))
  {
    assert (os + [p])[..|os|] == os && p in [p];
    SpaceScopedListFailsIff(syntax, os, namespaces);
    SpaceScopedListFailsIff(syntax, os + [p], namespaces);
    SpaceScopedListIsExact(syntax, os, namespaces, o);
    SpaceScopedListIsExact(syntax, os + [p], namespaces, o);
    assert AsksAll(os + [p], o.labels) <==> AsksAll(os, o.labels) && Asks(p, o.labels) by {
      assert p in os + [p];
    }
  }

  /** An empty WithLabelIn is neutral, an empty WithLabelStrictlyIn absorbing. */
  lemma EmptyLists(syntax: Syntax, os: seq<ListOption>, key: string, namespaces: Result<seq<string>, Error>, o: Listed)
    requires SpaceScoped(syntax, os, namespaces).Ok?
    ensures
      var lax := SpaceScoped(syntax, os + [WithLabelIn(key, [])], namespaces);
      lax.Ok? && (Returned(lax.value, o) <==> Returned(SpaceScoped(syntax, os, namespaces).value, o))
    ensures
      var strict := SpaceScoped(syntax, os + [WithLabelStrictlyIn(key, [])], namespaces);
      strict.Ok? && !Returned(strict.value, o)
  {
    OneMoreLabelOption(syntax, os, WithLabelIn(key, []), namespaces, o);
    OneMoreLabelOption(syntax, os, WithLabelStrictlyIn(key, []), namespaces, o);
  }
}
