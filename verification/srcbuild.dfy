/** src/quiz/build.py, the packaged revision of the query builder. Its
    attribute access, subscription, `Field.__gql__`,
    `InlineFragment.__gql__`, `Query.__gql__` and `escape` are the same code
    as quiz/build.py (`QuizBuild.GetAttr`, `QuizBuild.GetItem` and the
    renderer of `Selections` model both). It differs in two places: calling
    a selection set replaces the last selection with `ValueObject.replace`,
    which raises `ValueError` (not `TypeError`) for an inline fragment, and
    `argument_as_gql` registers no handler for lists. */
module SrcBuild {
  import opened Exceptions
  import opened Results
  import opened Values
  import opened Text
  import Escape
  import opened Selections
  import QuizBuild
  import Utils

  /** `__add_kwargs`: the last selection gets `kwargs` as its arguments.
      `target.replace(kwargs=...)` is `ValueObject.replace`, the named
      tuple's `_replace`, which raises `ValueError` for an inline fragment
      since it has no `kwargs` field. */
  function AddKwargs(ss: SelectionSet, kwargs: seq<(string, PyValue)>): (r: Raising<SelectionSet>)
    ensures r == Raised(Empty) <==> |ss.items| == 0
    ensures r == Raised(ValueError) <==> |ss.items| > 0 && ss.items[|ss.items| - 1].InlineFragment?
    ensures r.Returned? ==> var n := |ss.items|; var last := ss.items[n - 1];
      && |r.value.items| == n
      && r.value.items[..n - 1] == ss.items[..n - 1]
      && r.value.items[n - 1] == Field(last.name, kwargs, last.selectionSet, last.alias)
  {
    var split :- Utils.InitLast(ss.items);
    match split.1
    case Field(name, _, sub, alias) => Returned(SelectionSet(split.0 + [Field(name, kwargs, sub, alias)]))
    case InlineFragment(_, _) => Raised(ValueError)
  }

  /** `ss(*args, **kwargs)`: one positional argument is an alias for the
      next field; none adds the keyword arguments to the last selection;
      more fail to unpack with `ValueError`. */
  function Call(ss: SelectionSet, positional: seq<string>, kwargs: seq<(string, PyValue)>): (r: Raising<Called>)
    ensures |positional| == 1 <==> r.Returned? && r.value.AliasForNext?
    ensures |positional| == 1 ==> r.value == AliasForNext(ss, positional[0])
    ensures |positional| == 0 ==> match AddKwargs(ss, kwargs)
      case Returned(extended) => r == Returned(Extended(extended))
      case Raised(e) => r == Raised(e)
    ensures |positional| > 1 ==> r == Raised(ValueError)
  {
    if |positional| == 1 then Returned(AliasForNext(ss, positional[0]))
    else if |positional| > 1 then Raised(ValueError)
    else
      var extended :- AddKwargs(ss, kwargs);
      Returned(Extended(extended))
  }

  /** The two revisions call a selection set alike, except on a trailing
      inline fragment, where quiz/build.py's `dataclasses.replace` raises
      `TypeError` and this revision raises `ValueError`. */
  lemma CallsAgree(ss: SelectionSet, positional: seq<string>, kwargs: seq<(string, PyValue)>)
    ensures |ss.items| > 0 && ss.items[|ss.items| - 1].Field? ==> Call(ss, positional, kwargs) == QuizBuild.Call(ss, positional, kwargs)
    ensures |ss.items| == 0 ==> Call(ss, positional, kwargs) == QuizBuild.Call(ss, positional, kwargs)
    ensures |ss.items| > 0 && ss.items[|ss.items| - 1].InlineFragment? && |positional| == 0 ==>
      Call(ss, positional, kwargs) == Raised(ValueError) && QuizBuild.Call(ss, positional, kwargs) == Raised(TypeError)
  {
  }

  /** `argument_as_gql`: `str` (and its subclass `ID`) quoted and escaped,
      `int`, `None`, `bool`, `float` and enum members by their registered
      handlers; any other value through `type(obj).__gql_dump__`. A list, a
      dict or a loaded object has no such method and raises `TypeError`; a
      `Scalar` subclass without its own method inherits `Scalar.__gql_dump__`,
      which raises `NotImplementedError`. Instances of the quiz/types.py
      classes bring their own `__gql_dump__`. */
  function ArgumentAsGql(v: PyValue): (r: Raising<string>)
    ensures v.PList? || v.PDict? || v.PObject? ==> r == Raised(TypeError)
    ensures v.PStr? || v.PID? ==> r == Returned("\"" + Escape.Escape(v.s) + "\"")
    ensures v.PScalar? ==> r == (if v.dumped.Some? then Returned(v.dumped.value) else Raised(NotImplementedError))
  {
    match v
    case PStr(s) => Returned("\"" + Escape.Escape(s) + "\"")
    case PID(s) => Returned("\"" + Escape.Escape(s) + "\"")
    case PInt(i) => Returned(IntToString(i))
    case PNone => Returned("null")
    case PBool(b) => Returned(if b then "true" else "false")
    case PFloat(repr) => Returned(repr)
    case PEnumMember(_, _, value) => Returned(value)
    case PList(_) => Raised(TypeError)
    case PDict(_) => Raised(TypeError)
    case PObject(_, _) => Raised(TypeError)
    case PScalar(_, dumped) => if dumped.Some? then Returned(dumped.value) else Raised(NotImplementedError)
    case _ => QuizBuild.GqlDump(Escape.Escape, v)
  }

  /** The two revisions serialise every value alike, except that a list,
      which quiz/build.py writes as `[a b ...]` once it can write every
      item, raises `TypeError` here. */
  lemma AgreesExceptLists(v: PyValue)
    ensures !v.PList? ==> ArgumentAsGql(v) == QuizBuild.DumpInputValueAsWritten(v)
    ensures v.PList? ==> ArgumentAsGql(v) == Raised(TypeError)
    ensures v.PList? && (forall k | 0 <= k < |v.items| :: QuizBuild.DumpInputValueAsWritten(v.items[k]).Returned?) ==>
      QuizBuild.DumpInputValueAsWritten(v).Returned?
  {
    var esc := Escape.Escape;
    assert QuizBuild.DumpInputValueAsWritten(v) == QuizBuild.DumpWith(esc, v);
    match v
    case PStr(s) => assert QuizBuild.Quote(esc, s) == "\"" + Escape.Escape(s) + "\"";
    case PID(s) => assert QuizBuild.Quote(esc, s) == "\"" + Escape.Escape(s) + "\"";
    case PScalar(_, _) => assert QuizBuild.DumpWith(esc, v) == QuizBuild.GqlDump(esc, v);
    case _ =>
  }

  /** `gql(selection_set)` in this revision: aliases, `escape`,
      `textwrap.indent`; the layout of `Selections.BlockLines` while no
      argument value holds a line boundary other than a newline. */
  function Gql(ss: SelectionSet): (r: Raising<string>)
    ensures |ss.items| == 0 ==> r == Returned("")
    ensures |ss.items| > 0 && WellFormedSet(ss, ArgumentAsGql) && PlainSet(ss, ArgumentAsGql) ==>
      r == BlockText(BlockLines(ss, "", ArgumentAsGql, true))
  {
    var r := RenderSet(ss, ArgumentAsGql, Indent, true);
    if |ss.items| > 0 && WellFormedSet(ss, ArgumentAsGql) && PlainSet(ss, ArgumentAsGql) then
      IndentedLayout(ss, ArgumentAsGql, true); r
    else r
  }

  /** `Query.__gql__`. */
  function QueryGql(ss: SelectionSet): (r: Raising<string>)
    ensures |ss.items| == 0 ==> r == Returned("query ")
    ensures |ss.items| > 0 && WellFormedSet(ss, ArgumentAsGql) && PlainSet(ss, ArgumentAsGql) ==>
      r == Headed("query ", BlockText(BlockLines(ss, "", ArgumentAsGql, true)))
  {
    var block :- Gql(ss);
    assert "query " + "" == "query ";
    Returned("query " + block)
  }

  /** A field whose argument is a list cannot be rendered: the whole
      selection set raises `TypeError`. */
  lemma ListArgumentRaises(name: string, k: string, items: seq<PyValue>)
    ensures Gql(SelectionSet([Field(name, [(k, PList(items))], NoSelections, None)])) == Raised(TypeError)
  {
    var kw := [(k, PList(items))];
    var f := Field(name, kw, NoSelections, None);
    var ss := SelectionSet([f]);
    assert RenderArgs(kw, ArgumentAsGql) == Raised(TypeError);
    assert RenderArguments(kw, ArgumentAsGql) == Raised(TypeError);
    assert RenderItem(f, ArgumentAsGql, Indent, true) == Raised(TypeError);
    assert ss.items[0] == f;
    assert RenderItems(ss, 0, ArgumentAsGql, Indent, true) == Raised(TypeError);
  }
}
