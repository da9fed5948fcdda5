/** quiz/core.py, the oldest revision: a selection set builder without
    aliases, serialisation of argument values, operations, and `query`,
    which validates a selection set before wrapping it in a query
    operation. Its validator is `RaisingValidation`. */
module Core {
  import opened Exceptions
  import opened Results
  import opened Values
  import opened Text
  import Escape
  import opened Selections
  import opened Utils
  import opened Catalogs
  import QuizBuild
  import SrcBuild
  import RaisingValidation

  // ---------------------------------------------------------------------
  // Extending a selection set

  // `ss.name` is `QuizBuild.GetAttr`: quiz/core.py appends a bare field as
  // quiz/build.py does.

  /** `ss[arg]`: an empty `ss` raises `Error`; then `arg` must be a non-empty
      selection set (`None` stands for a subscript that is not one). */
  function GetItem(ss: SelectionSet, arg: Option<SelectionSet>): (r: Raising<SelectionSet>)
    ensures |ss.items| == 0 <==> r == Raised(Error("cannot select fields from empty field list"))
    ensures r == Raised(AssertionError) <==> |ss.items| > 0 && (arg.None? || |arg.value.items| == 0)
    ensures r.Returned? ==> var n := |ss.items|;
      && arg.Some?
      && |r.value.items| == n
      && r.value.items[..n - 1] == ss.items[..n - 1]
      && r.value.items[n - 1] == QuizBuild.WithSub(ss.items[n - 1], arg.value)
  {
    match InitLast(ss.items)
    case Raised(_) => Raised(Error("cannot select fields from empty field list"))
    case Returned(split) =>
      if arg.None? || |arg.value.items| == 0 then Raised(AssertionError)
      else Returned(SelectionSet(split.0 + [QuizBuild.WithSub(split.1, arg.value)]))
  }

  /** `ss(**kwargs)`: an empty `ss` raises `Error`; otherwise the last
      selection gets `kwargs` as its arguments. An inline fragment has no
      `kwargs` field, and replacing it raises `ValueError`. */
  function Call(ss: SelectionSet, kwargs: seq<(string, PyValue)>): (r: Raising<SelectionSet>)
    ensures |ss.items| == 0 <==> r == Raised(Error("cannot call empty field list"))
    ensures r == Raised(ValueError) <==> |ss.items| > 0 && ss.items[|ss.items| - 1].InlineFragment?
    ensures r.Returned? ==> var n := |ss.items|; var last := ss.items[n - 1];
      && |r.value.items| == n
      && r.value.items[..n - 1] == ss.items[..n - 1]
      && r.value.items[n - 1] == Field(last.name, kwargs, last.selectionSet, last.alias)
  {
    match InitLast(ss.items)
    case Raised(_) => Raised(Error("cannot call empty field list"))
    case Returned(split) =>
      match split.1
      case Field(name, _, sub, alias) => Returned(SelectionSet(split.0 + [Field(name, kwargs, sub, alias)]))
      case InlineFragment(_, _) => Raised(ValueError)
  }

  /** On a non-empty selection set the builder behaves as quiz/build.py's:
      only the exception for an empty one differs. */
  lemma BuildersAgree(ss: SelectionSet, arg: Option<SelectionSet>, kwargs: seq<(string, PyValue)>)
    requires |ss.items| > 0
    ensures GetItem(ss, arg) == QuizBuild.GetItem(ss, arg)
    ensures ss.items[|ss.items| - 1].Field? ==> Call(ss, kwargs) == QuizBuild.AddKwargs(ss, kwargs)
  {
  }

  // ---------------------------------------------------------------------
  // Serialising argument values

  /** `argument_as_gql`: `str` and `ID` quoted and escaped, `int`, `None`,
      `bool` and `float` by their registered handlers, and a member of an
      enum by its value when its class, one of `enums`, derives from
      quiz/core.py's `Enum`; anything else, members of other `enum.Enum`
      classes included, raises `TypeError`. */
  function ArgumentAsGql(enums: set<string>, v: PyValue): (r: Raising<string>)
    ensures r.Raised? ==> r.exc == TypeError
    ensures r.Returned? <==>
      v.PStr? || v.PID? || v.PInt? || v.PNone? || v.PBool? || v.PFloat? || (v.PEnumMember? && v.cls in enums)
    ensures v.PStr? || v.PID? ==> r == Returned("\"" + Escape.Escape(v.s) + "\"")
    ensures v.PNone? ==> r == Returned("null")
    ensures v.PBool? ==> r == Returned(if v.b then "true" else "false")
    ensures v.PEnumMember? && v.cls in enums ==> r == Returned(v.value)
  {
    match v
    case PStr(s) => Returned("\"" + Escape.Escape(s) + "\"")
    case PID(s) => Returned("\"" + Escape.Escape(s) + "\"")
    case PInt(i) => Returned(IntToString(i))
    case PNone => Returned("null")
    case PBool(b) => Returned(if b then "true" else "false")
    case PFloat(repr) => Returned(repr)
    case PEnumMember(cls, _, value) => if cls in enums then Returned(value) else Raised(TypeError)
    case _ => Raised(TypeError)
  }

  /** `argument_as_gql` as the renderer's serialiser, for the enum classes
      `enums` that derive from quiz/core.py's `Enum`. */
  function Dumper(enums: set<string>): PyValue -> Raising<string> {
    v => ArgumentAsGql(enums, v)
  }

  /** Whatever this revision serialises, src/quiz/build.py serialises the
      same way; it also serialises scalars with a `__gql_dump__` method,
      which this revision rejects. */
  lemma ArgumentAgreesWithSrc(enums: set<string>, v: PyValue)
    ensures ArgumentAsGql(enums, v).Returned? ==> SrcBuild.ArgumentAsGql(v) == ArgumentAsGql(enums, v)
    ensures v.PScalar? && v.dumped.Some? ==> ArgumentAsGql(enums, v) == Raised(TypeError) && SrcBuild.ArgumentAsGql(v).Returned?
  {
  }

  /** An integer is written in decimal, and reads back as the same number. */
  lemma IntArgumentReadsBack(enums: set<string>, i: int)
    ensures ArgumentAsGql(enums, PInt(i)).Returned? && ParseInt(ArgumentAsGql(enums, PInt(i)).value) == Some(i)
  {
    IntToStringRoundTrip(i);
  }

  // ---------------------------------------------------------------------
  // Rendering

  /** `gql(selection_set)` in this revision: no aliases, `escape`,
      `textwrap.indent`; the layout of `Selections.BlockLines` while no
      argument value holds a line boundary other than a newline. */
  function Gql(enums: set<string>, ss: SelectionSet): (r: Raising<string>)
    ensures |ss.items| == 0 ==> r == Returned("")
    ensures |ss.items| > 0 && WellFormedSet(ss, Dumper(enums)) && PlainSet(ss, Dumper(enums)) ==>
      r == BlockText(BlockLines(ss, "", Dumper(enums), false))
  {
    var r := RenderSet(ss, Dumper(enums), Indent, false);
    if |ss.items| > 0 && WellFormedSet(ss, Dumper(enums)) && PlainSet(ss, Dumper(enums)) then
      IndentedLayout(ss, Dumper(enums), false); r
    else r
  }

  /** Fields without aliases, at every depth: the only selections this
      revision's builder makes. */
  predicate AliasFree(ss: SelectionSet)
    decreases ss, 1
  {
    forall i | 0 <= i < |ss.items| :: ItemAliasFree(ss.items[i])
  }

  predicate ItemAliasFree(s: Selection)
    decreases s, 0
  {
    match s
    case Field(_, _, sub, alias) => (alias.None? || |alias.value| == 0) && AliasFree(sub)
    case InlineFragment(_, sub) => AliasFree(sub)
  }

  /** Building keeps a selection set alias-free. */
  lemma BuildingKeepsAliasFree(ss: SelectionSet, name: string, kwargs: seq<(string, PyValue)>, arg: Option<SelectionSet>)
    requires AliasFree(ss)
    requires arg.Some? ==> AliasFree(arg.value)
    ensures AliasFree(QuizBuild.GetAttr(ss, name))
    ensures Call(ss, kwargs).Returned? ==> AliasFree(Call(ss, kwargs).value)
    ensures GetItem(ss, arg).Returned? ==> AliasFree(GetItem(ss, arg).value)
  {
    var n := |ss.items|;
    var g := QuizBuild.GetAttr(ss, name);
    assert forall i | 0 <= i < n :: g.items[i] == ss.items[i];
    if Call(ss, kwargs).Returned? {
      var c := Call(ss, kwargs).value;
      assert forall i | 0 <= i < n - 1 :: c.items[i] == ss.items[i];
      assert ItemAliasFree(ss.items[n - 1]);
    }
    if GetItem(ss, arg).Returned? {
      var c := GetItem(ss, arg).value;
      assert forall i | 0 <= i < n - 1 :: c.items[i] == ss.items[i];
      assert ItemAliasFree(ss.items[n - 1]);
    }
  }

  /** Whatever this revision renders, src/quiz/build.py renders the same
      way: without aliases the two renderers differ only in the values
      they can serialise. */
  lemma {:induction false} RendersLikeSrc(enums: set<string>, ss: SelectionSet)
    requires AliasFree(ss)
    ensures Gql(enums, ss).Returned? ==> SrcBuild.Gql(ss) == Gql(enums, ss)
    decreases ss, 2
  {
    if |ss.items| > 0 {
      ItemsLikeSrc(enums, ss, 0);
    }
  }

  lemma {:induction false} ItemsLikeSrc(enums: set<string>, ss: SelectionSet, i: nat)
    requires i <= |ss.items|
    requires AliasFree(ss)
    ensures var r := RenderItems(ss, i, Dumper(enums), Indent, false);
      r.Returned? ==> RenderItems(ss, i, SrcBuild.ArgumentAsGql, Indent, true) == r
    decreases ss, 1, |ss.items| - i
  {
    if i < |ss.items| {
      ItemLikeSrc(enums, ss.items[i]);
      ItemsLikeSrc(enums, ss, i + 1);
    }
  }

  lemma {:induction false} ItemLikeSrc(enums: set<string>, s: Selection)
    requires ItemAliasFree(s)
    ensures var r := RenderItem(s, Dumper(enums), Indent, false);
      r.Returned? ==> RenderItem(s, SrcBuild.ArgumentAsGql, Indent, true) == r
    decreases s, 0
  {
    RendersLikeSrc(enums, s.selectionSet);
    if s.Field? {
      ArgsLikeSrc(enums, s.kwargs);
    }
  }

  lemma ArgsLikeSrc(enums: set<string>, kwargs: seq<(string, PyValue)>)
    ensures var r := RenderArguments(kwargs, Dumper(enums));
      r.Returned? ==> RenderArguments(kwargs, SrcBuild.ArgumentAsGql) == r
  {
    var r := RenderArgs(kwargs, Dumper(enums));
    if r.Returned? {
      forall k | 0 <= k < |kwargs| ensures SrcBuild.ArgumentAsGql(kwargs[k].1) == ArgumentAsGql(enums, kwargs[k].1) {
        ArgumentAgreesWithSrc(enums, kwargs[k].1);
      }
      var q := RenderArgs(kwargs, SrcBuild.ArgumentAsGql);
      assert q.Returned?;
      assert q.value == r.value;
    }
  }

  // ---------------------------------------------------------------------
  // Operations

  datatype OperationType = Query | Mutation | Subscription

  /** The enum values of `OperationType`. */
  function Keyword(t: OperationType): string {
    match t
    case Query => "query"
    case Mutation => "mutation"
    case Subscription => "subscription"
  }

  datatype Operation = Operation(typ: OperationType, selectionSet: SelectionSet)

  /** `Operation.__gql__`: the keyword, a space, the selection set. */
  function OperationGql(enums: set<string>, op: Operation): (r: Raising<string>)
    ensures |op.selectionSet.items| == 0 ==> r == Returned(Keyword(op.typ) + " ")
    ensures var ss := op.selectionSet;
      |ss.items| > 0 && WellFormedSet(ss, Dumper(enums)) && PlainSet(ss, Dumper(enums)) ==>
        r == Headed(Keyword(op.typ) + " ", BlockText(BlockLines(ss, "", Dumper(enums), false)))
  {
    var block :- Gql(enums, op.selectionSet);
    assert Keyword(op.typ) + " " + "" == Keyword(op.typ) + " ";
    Returned(Keyword(op.typ) + " " + block)
  }

  /** `query(selection_set, cls)`: a query operation on the validated selection set. */
  function MakeQuery(cat: Catalog, cls: string, ss: SelectionSet): (r: Result<Operation, RaisingValidation.Failure>)
    ensures r.Ok? <==> RaisingValidation.Valid(cat, cls, ss)
    ensures r.Ok? ==> r.value == Operation(Query, ss)
    ensures r.Err? ==> RaisingValidation.Validate(cat, cls, ss) == Err(r.error)
  {
    RaisingValidation.ValidateDecides(cat, cls, ss);
    match RaisingValidation.Validate(cat, cls, ss)
    case Ok(validated) => Ok(Operation(Query, validated))
    case Err(e) => Err(e)
  }

  /** A valid query renders as `query ` followed by the rendering of the
      selection set it was made from. */
  lemma QueryRenders(enums: set<string>, cat: Catalog, cls: string, ss: SelectionSet)
    requires RaisingValidation.Valid(cat, cls, ss)
    ensures MakeQuery(cat, cls, ss).Ok?
    ensures var text := OperationGql(enums, MakeQuery(cat, cls, ss).value);
      text.Returned? <==> Gql(enums, ss).Returned?
    ensures Gql(enums, ss).Returned? ==> OperationGql(enums, MakeQuery(cat, cls, ss).value) == Returned("query " + Gql(enums, ss).value)
  {
    var op := MakeQuery(cat, cls, ss).value;
    assert op == Operation(Query, ss);
    if Gql(enums, ss).Returned? {
      var block := Gql(enums, ss).value;
      assert Keyword(Query) + " " + block == "query " + block;
    }
  }
}
