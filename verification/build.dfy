/** quiz/build.py, the current revision of the query builder: extending a
    selection set by attribute access, subscription and calls, serialising
    argument values (`dump_inputvalue` and the `__gql_dump__` methods of
    quiz/types.py it defers to), and rendering selection sets and queries. */
module QuizBuild {
  import opened Exceptions
  import opened Results
  import opened Values
  import opened Text
  import Escape
  import opened Selections
  import opened Utils
  import opened Literals

  // ---------------------------------------------------------------------
  // Extending a selection set

  /** The same selection with another sub-selection (`replace(target, selection_set=...)`). */
  function WithSub(s: Selection, sub: SelectionSet): (r: Selection)
    ensures r.selectionSet == sub && r.Field? == s.Field?
    ensures r.Field? ==> r.name == s.name && r.kwargs == s.kwargs && r.alias == s.alias
    ensures r.InlineFragment? ==> r.on == s.on
  {
    match s
    case Field(name, kwargs, _, alias) => Field(name, kwargs, sub, alias)
    case InlineFragment(on, _) => InlineFragment(on, sub)
  }

  /** `ss.name`: the selections of `ss`, then a bare field `name`. */
  function GetAttr(ss: SelectionSet, name: string): (r: SelectionSet)
    ensures |r.items| == |ss.items| + 1
    ensures r.items[..|ss.items|] == ss.items
    ensures r.items[|ss.items|] == Field(name, [], NoSelections, None)
  {
    Append(ss, Bare(name))
  }

  /** `ss[arg]`: the last selection gets `arg` as its sub-selection. `arg` is
      `None` when the subscript is not a selection set at all. The emptiness
      of `ss` is checked first (`init_last`), then the two assertions. */
  function GetItem(ss: SelectionSet, arg: Option<SelectionSet>): (r: Raising<SelectionSet>)
    ensures r == Raised(Empty) <==> |ss.items| == 0
    ensures r == Raised(AssertionError) <==> |ss.items| > 0 && (arg.None? || |arg.value.items| == 0)
    ensures r.Returned? ==> var n := |ss.items|;
      && arg.Some?
      && |r.value.items| == n
      && r.value.items[..n - 1] == ss.items[..n - 1]
      && r.value.items[n - 1] == WithSub(ss.items[n - 1], arg.value)
  {
    var split :- InitLast(ss.items);
    if arg.None? || |arg.value.items| == 0 then Raised(AssertionError)
    else Returned(SelectionSet(split.0 + [WithSub(split.1, arg.value)]))
  }

  /** `__add_kwargs`: the last selection gets `kwargs` as its arguments;
      an inline fragment has no `kwargs` field, so `replace` raises `TypeError`. */
  function AddKwargs(ss: SelectionSet, kwargs: seq<(string, PyValue)>): (r: Raising<SelectionSet>)
    ensures r == Raised(Empty) <==> |ss.items| == 0
    ensures r == Raised(TypeError) <==> |ss.items| > 0 && ss.items[|ss.items| - 1].InlineFragment?
    ensures r.Returned? ==> var n := |ss.items|; var last := ss.items[n - 1];
      && |r.value.items| == n
      && r.value.items[..n - 1] == ss.items[..n - 1]
      && r.value.items[n - 1] == Field(last.name, kwargs, last.selectionSet, last.alias)
  {
    var split :- InitLast(ss.items);
    match split.1
    case Field(name, _, sub, alias) => Returned(SelectionSet(split.0 + [Field(name, kwargs, sub, alias)]))
    case InlineFragment(_, _) => Raised(TypeError)
  }

  /** `ss(*positional, **kwargs)`: one positional argument is an alias for the
      next field (keyword arguments are then ignored); none adds the keyword
      arguments to the last field; more fail to unpack with `ValueError`. */
  function Call(ss: SelectionSet, positional: seq<string>, kwargs: seq<(string, PyValue)>): (r: Raising<Called>)
    ensures |positional| == 1 <==> r.Returned? && r.value.AliasForNext?
    ensures |positional| == 1 ==> r.value == AliasForNext(ss, positional[0])
    ensures |positional| > 1 <==> r == Raised(ValueError)
    ensures |positional| == 0 ==> match AddKwargs(ss, kwargs)
      case Returned(extended) => r == Returned(Extended(extended))
      case Raised(e) => r == Raised(e)
  {
    if |positional| == 1 then Returned(AliasForNext(ss, positional[0]))
    else if |positional| > 1 then Raised(ValueError)
    else
      var extended :- AddKwargs(ss, kwargs);
      Returned(Extended(extended))
  }

  /** `_AliasForNextField.__getattr__`: appends field `name` under the alias. */
  function AliasNext(a: Called, name: string): (r: SelectionSet)
    requires a.AliasForNext?
    ensures |r.items| == |a.base.items| + 1 && r.items[..|a.base.items|] == a.base.items
    ensures r.items[|a.base.items|] == Field(name, [], NoSelections, Some(a.alias))
  {
    Append(a.base, Field(name, [], NoSelections, Some(a.alias)))
  }

  // ---------------------------------------------------------------------
  // Serialising argument values

  /** How string contents are escaped inside quotes. */
  type Escaper = string -> string

  function Quote(esc: Escaper, s: string): string {
    "\"" + esc(s) + "\""
  }

  /** `dump_inputvalue`: the types registered with `singledispatch` (`str`,
      `int`, `None`, `bool`, `float`, `list`, enum members), otherwise the
      `__gql_dump__` method looked up on the class; a class without one
      (a `dict`, a loaded object) raises `TypeError`. */
  function DumpWith(esc: Escaper, v: PyValue): Raising<string>
    decreases v, 2
  {
    match v
    case PStr(s) => Returned(Quote(esc, s))
    case PID(s) => Returned(Quote(esc, s))
    case PInt(i) => Returned(IntToString(i))
    case PNone => Returned("null")
    case PBool(b) => Returned(if b then "true" else "false")
    case PFloat(repr) => Returned(repr)
    case PList(items) =>
      var parts :- DumpItems(esc, items);
      Returned("[" + Join(" ", parts) + "]")
    case PEnumMember(_, _, value) => Returned(value)
    case PDict(_) => Raised(TypeError)
    case PObject(_, _) => Raised(TypeError)
    case _ => GqlDump(esc, v)
  }

  /** The items of a list in order; the first that cannot be serialised
      decides the exception. */
  function DumpItems(esc: Escaper, items: seq<PyValue>): (r: Raising<seq<string>>)
    ensures r.Returned? <==> forall k | 0 <= k < |items| :: DumpWith(esc, items[k]).Returned?
    ensures r.Returned? ==> |r.value| == |items| && forall k | 0 <= k < |items| :: r.value[k] == DumpWith(esc, items[k]).value
    ensures r.Raised? ==> exists k | 0 <= k < |items| ::
      && DumpWith(esc, items[k]) == Raised(r.exc)
      && forall j | 0 <= j < k :: DumpWith(esc, items[j]).Returned?
    decreases items
  {
    if |items| == 0 then Returned([])
    else
      var first :- DumpWith(esc, items[0]);
      var rest :- DumpItems(esc, items[1..]);
      Returned([first] + rest)
  }

  /** `v.__gql_dump__()` for the classes of quiz/types.py. Wrappers defer to
      the method of the value they hold, so a plain Python value inside
      one (which has no such method) raises `AttributeError`; a scalar
      class without its own method inherits `InputValue.__gql_dump__`,
      which raises `NotImplementedError`. */
  function GqlDump(esc: Escaper, v: PyValue): Raising<string>
    decreases v, 1
  {
    match v
    case IntW(i) => Returned(IntToString(i))
    case FloatW(repr) => Returned(repr)
    case BooleanW(b) => Returned(if b then "true" else "false")
    case StringW(_, s) => Returned(Quote(esc, s))
    case NullableW(_, inner) => if inner.PNone? then Returned("null") else GqlDump(esc, inner)
    case AnyScalarW(_, inner) => if inner.PNone? then Returned("null") else GqlDump(esc, inner)
    case ListW(_, items) =>
      var parts :- GqlDumpItems(esc, items);
      Returned("[" + Join(" ", parts) + "]")
    case InputObjectW(_, _) =>
      var parts :- DumpFields(esc, v, 0);
      Returned("{" + Join(" ", parts) + "}")
    case PEnumMember(_, _, value) => Returned(value)
    case PScalar(_, dumped) => if dumped.Some? then Returned(dumped.value) else Raised(NotImplementedError)
    case _ => Raised(AttributeError)
  }

  function GqlDumpItems(esc: Escaper, items: seq<PyValue>): (r: Raising<seq<string>>)
    ensures r.Returned? <==> forall k | 0 <= k < |items| :: GqlDump(esc, items[k]).Returned?
    ensures r.Returned? ==> |r.value| == |items| && forall k | 0 <= k < |items| :: r.value[k] == GqlDump(esc, items[k]).value
    ensures r.Raised? ==> exists k | 0 <= k < |items| ::
      && GqlDump(esc, items[k]) == Raised(r.exc)
      && forall j | 0 <= j < k :: GqlDump(esc, items[j]).Returned?
    decreases items
  {
    if |items| == 0 then Returned([])
    else
      var first :- GqlDump(esc, items[0]);
      var rest :- GqlDumpItems(esc, items[1..]);
      Returned([first] + rest)
  }

  /** The `name: value` pieces of an input object from field `i` on. */
  function DumpFields(esc: Escaper, v: PyValue, i: nat): (r: Raising<seq<string>>)
    requires v.InputObjectW? && i <= |v.fields|
    ensures r.Returned? <==> forall k | i <= k < |v.fields| :: DumpWith(esc, v.fields[k].1).Returned?
    ensures r.Returned? ==> |r.value| == |v.fields| - i && forall k | i <= k < |v.fields| ::
      r.value[k - i] == v.fields[k].0 + ": " + DumpWith(esc, v.fields[k].1).value
    decreases v, 0, |v.fields| - i
  {
    if i == |v.fields| then Returned([])
    else
      var first :- DumpWith(esc, v.fields[i].1);
      var rest :- DumpFields(esc, v, i + 1);
      Returned([v.fields[i].0 + ": " + first] + rest)
  }

  /** `dump_inputvalue` with every control character escaped (see `Escape.EscapeFull`). */
  function DumpInputValue(v: PyValue): Raising<string> {
    DumpWith(Escape.EscapeFull, v)
  }

  /** `dump_inputvalue` exactly as written, with `escape`. */
  function DumpInputValueAsWritten(v: PyValue): Raising<string> {
    DumpWith(Escape.Escape, v)
  }

  // ---------------------------------------------------------------------
  // Rendering

  /** `gql(selection_set)`, with the two corrections: full escaping and
      indentation at newline characters only. Its text is the layout of
      `Selections.BlockLines` whenever names are GraphQL names and values
      serialise on one line. */
  function Gql(ss: SelectionSet): (r: Raising<string>)
    ensures |ss.items| == 0 ==> r == Returned("")
    ensures |ss.items| > 0 && WellFormedSet(ss, DumpInputValue) ==> r == BlockText(BlockLines(ss, "", DumpInputValue, true))
  {
    var r := RenderSet(ss, DumpInputValue, IndentAtNewlines, true);
    if |ss.items| > 0 && WellFormedSet(ss, DumpInputValue) then RenderSetLayout(ss, DumpInputValue, true); r else r
  }

  /** `gql(selection_set)` as written: `escape` and `textwrap.indent`. It
      has the same layout only while no argument value holds a line
      boundary other than a newline (see `SeparatorIndented`). */
  function GqlAsWritten(ss: SelectionSet): (r: Raising<string>)
    ensures |ss.items| == 0 ==> r == Returned("")
    ensures |ss.items| > 0 && WellFormedSet(ss, DumpInputValueAsWritten) && PlainSet(ss, DumpInputValueAsWritten) ==>
      r == BlockText(BlockLines(ss, "", DumpInputValueAsWritten, true))
  {
    var r := RenderSet(ss, DumpInputValueAsWritten, Indent, true);
    if |ss.items| > 0 && WellFormedSet(ss, DumpInputValueAsWritten) && PlainSet(ss, DumpInputValueAsWritten) then
      IndentedLayout(ss, DumpInputValueAsWritten, true); r
    else r
  }

  /** `Query.__gql__` as written: `query ` and the as-written rendering. */
  function QueryGql(ss: SelectionSet): (r: Raising<string>)
    ensures |ss.items| == 0 ==> r == Returned("query ")
    ensures |ss.items| > 0 && WellFormedSet(ss, DumpInputValueAsWritten) && PlainSet(ss, DumpInputValueAsWritten) ==>
      r == Headed("query ", BlockText(BlockLines(ss, "", DumpInputValueAsWritten, true)))
  {
    var block :- GqlAsWritten(ss);
    assert "query " + "" == "query ";
    Returned("query " + block)
  }

  /** `Query.__gql__` over the corrected rendering. */
  function QueryGqlCorrected(ss: SelectionSet): (r: Raising<string>)
    ensures |ss.items| == 0 ==> r == Returned("query ")
    ensures |ss.items| > 0 && WellFormedSet(ss, DumpInputValue) ==> r == Headed("query ", BlockText(BlockLines(ss, "", DumpInputValue, true)))
  {
    var block :- Gql(ss);
    assert "query " + "" == "query ";
    Returned("query " + block)
  }

  // ---------------------------------------------------------------------
  // What extending a selection set does to its rendering

  /** The renderings of the selections of `ss` extended by `x`: those of `ss`,
      then that of `x`, whichever raises first deciding the exception. */
  lemma {:induction false} RenderItemsAppend(ss: SelectionSet, x: Selection, i: nat, dump: Dumper, indent: Indenter, aliases: bool)
    requires i <= |ss.items|
    ensures var before := RenderItems(ss, i, dump, indent, aliases);
      var last := RenderItem(x, dump, indent, aliases);
      RenderItems(Append(ss, x), i, dump, indent, aliases) ==
        if before.Raised? then before
        else if last.Raised? then Raised(last.exc)
        else Returned(before.value + [indent(last.value, Indentation)])
    decreases |ss.items| - i
  {
    var ext := Append(ss, x);
    if i == |ss.items| {
      assert ext.items[i] == x;
      assert RenderItems(ext, i + 1, dump, indent, aliases) == Returned([]);
      assert RenderItems(ss, i, dump, indent, aliases) == Returned([]);
      var last := RenderItem(x, dump, indent, aliases);
      if last.Returned? {
        assert [indent(last.value, Indentation)] + [] == [] + [indent(last.value, Indentation)];
      }
    } else {
      assert ext.items[i] == ss.items[i];
      RenderItemsAppend(ss, x, i + 1, dump, indent, aliases);
      var first := RenderItem(ss.items[i], dump, indent, aliases);
      var rest := RenderItems(ss, i + 1, dump, indent, aliases);
      var last := RenderItem(x, dump, indent, aliases);
      if first.Returned? && rest.Returned? && last.Returned? {
        var y := indent(first.value, Indentation);
        assert [y] + (rest.value + [indent(last.value, Indentation)]) == ([y] + rest.value) + [indent(last.value, Indentation)];
      }
    }
  }

  lemma IndentName(name: string)
    requires IsName(name)
    ensures IndentAtNewlines(name, Indentation) == Indentation + name
  {
    NameOneLine(name);
    assert !AllSpace(name) by {
      assert !IsSpace(name[0]);
    }
    IndentJoin([name], Indentation);
  }

  lemma DropClosing(a: string)
    ensures var t := a + "\n}"; t[..|t| - 2] == a
  {
  }

  lemma BareRenders(name: string)
    ensures RenderItem(Bare(name), DumpInputValue, IndentAtNewlines, true) == Returned(name)
  {
    assert RenderArguments([], DumpInputValue) == Returned("");
    assert RenderSet(NoSelections, DumpInputValue, IndentAtNewlines, true) == Returned("");
    assert AliasPrefix(None, true) == "";
    assert "" + name + "" + "" == name;
  }

  /** The rendering of `ss.name` in terms of the renderings of the selections of `ss`. */
  lemma GetAttrUnfold(ss: SelectionSet, name: string)
    requires IsName(name)
    ensures var before := RenderItems(ss, 0, DumpInputValue, IndentAtNewlines, true);
      Gql(GetAttr(ss, name)) ==
        if before.Raised? then Raised(before.exc)
        else Returned("{\n" + Join("\n", before.value + [Indentation + name]) + "\n}")
  {
    RenderItemsAppend(ss, Bare(name), 0, DumpInputValue, IndentAtNewlines, true);
    BareRenders(name);
    IndentName(name);
    RenderSetUnfold(GetAttr(ss, name), DumpInputValue, IndentAtNewlines, true);
  }

  lemma SpliceLine(lines: seq<string>, line: string)
    requires |lines| > 0
    ensures var t := "{\n" + Join("\n", lines) + "\n}";
      "{\n" + Join("\n", lines + [line]) + "\n}" == t[..|t| - 2] + "\n" + line + "\n}"
  {
    var a := "{\n" + Join("\n", lines);
    JoinAppend("\n", lines, [line]);
    DropClosing(a);
    assert "{\n" + (Join("\n", lines) + "\n" + line) == a + "\n" + line;
  }

  /** Appending a field adds one line holding its name, indented one level,
      just before the closing brace; an empty set becomes a block of that line. */
  lemma GetAttrRendersLine(ss: SelectionSet, name: string)
    requires IsName(name)
    ensures Gql(ss).Raised? ==> Gql(GetAttr(ss, name)) == Gql(ss)
    ensures Gql(ss).Returned? ==> Gql(GetAttr(ss, name)) == Returned(
      if |ss.items| == 0 then "{\n" + (Indentation + name) + "\n}"
      else Gql(ss).value[..|Gql(ss).value| - 2] + "\n" + (Indentation + name) + "\n}")
  {
    GetAttrUnfold(ss, name);
    var before := RenderItems(ss, 0, DumpInputValue, IndentAtNewlines, true);
    if |ss.items| == 0 {
      assert before == Returned([]);
      assert [] + [Indentation + name] == [Indentation + name];
      assert Join("\n", [Indentation + name]) == Indentation + name;
    } else {
      RenderSetUnfold(ss, DumpInputValue, IndentAtNewlines, true);
      if before.Returned? {
        SpliceLine(before.value, Indentation + name);
      }
    }
  }

  // ---------------------------------------------------------------------
  // Serialised values read back as the values they came from

  /** The literal a value stands for, for the values whose serialisation the
      reader of module `Literals` accepts: floats, scalars with their own
      serialisation and enum values that are not GraphQL names are outside
      this domain, and so is whatever `dump_inputvalue` rejects. */
  function Denotes(v: PyValue): Option<Lit>
    decreases v, 2
  {
    match v
    case PNone => Some(LNull)
    case PBool(b) => Some(LBool(b))
    case PInt(i) => Some(LInt(i))
    case PStr(s) => Some(LString(s))
    case PID(s) => Some(LString(s))
    case PList(items) =>
      (match DenotesItems(items)
       case Some(ls) => Some(LList(ls))
       case None => None)
    case PEnumMember(_, _, value) => if IsEnumValue(value) then Some(LEnum(value)) else None
    case PFloat(_) => None
    case PDict(_) => None
    case PObject(_, _) => None
    case _ => DenotesObject(v)
  }

  function DenotesItems(items: seq<PyValue>): (r: Option<seq<Lit>>)
    ensures r.Some? ==> |r.value| == |items|
    decreases items
  {
    if |items| == 0 then Some([])
    else match (Denotes(items[0]), DenotesItems(items[1..]))
      case (Some(x), Some(xs)) => Some([x] + xs)
      case _ => None
  }

  /** The literal an instance of a class of quiz/types.py stands for. */
  function DenotesObject(v: PyValue): Option<Lit>
    decreases v, 1
  {
    match v
    case IntW(i) => Some(LInt(i))
    case BooleanW(b) => Some(LBool(b))
    case StringW(_, s) => Some(LString(s))
    case NullableW(_, inner) => if inner.PNone? then Some(LNull) else DenotesObject(inner)
    case AnyScalarW(_, inner) => if inner.PNone? then Some(LNull) else DenotesObject(inner)
    case ListW(_, items) =>
      (match DenotesObjectItems(items)
       case Some(ls) => Some(LList(ls))
       case None => None)
    case InputObjectW(_, _) =>
      (match DenotesFields(v, 0)
       case Some(fs) => Some(LObject(fs))
       case None => None)
    case PEnumMember(_, _, value) => if IsEnumValue(value) then Some(LEnum(value)) else None
    case _ => None
  }

  function DenotesObjectItems(items: seq<PyValue>): (r: Option<seq<Lit>>)
    ensures r.Some? ==> |r.value| == |items|
    decreases items
  {
    if |items| == 0 then Some([])
    else match (DenotesObject(items[0]), DenotesObjectItems(items[1..]))
      case (Some(x), Some(xs)) => Some([x] + xs)
      case _ => None
  }

  function DenotesFields(v: PyValue, i: nat): (r: Option<seq<(string, Lit)>>)
    requires v.InputObjectW? && i <= |v.fields|
    ensures r.Some? ==> |r.value| == |v.fields| - i
    decreases v, 0, |v.fields| - i
  {
    if i == |v.fields| then Some([])
    else if !IsName(v.fields[i].0) then None
    else match (Denotes(v.fields[i].1), DenotesFields(v, i + 1))
      case (Some(x), Some(xs)) => Some([(v.fields[i].0, x)] + xs)
      case _ => None
  }

  lemma JoinOpens(sep: string, parts: seq<string>)
    requires |parts| > 0 && Opens(parts[0])
    ensures Opens(Join(sep, parts))
  {
  }

  lemma NameOpens(name: string)
    requires IsName(name)
    ensures Opens(name)
  {
  }

  /** `dump_inputvalue` writes a literal that reads back as the literal the
      value stands for, whatever follows it after a delimiter. */
  lemma {:induction false} DumpReadsBack(v: PyValue, rest: string)
    requires Denotes(v).Some? && Delimited(rest)
    ensures DumpInputValue(v).Returned? && Opens(DumpInputValue(v).value)
    ensures ParseValue(DumpInputValue(v).value + rest) == Some((Denotes(v).value, rest))
    decreases v, 2
  {
    match v
    case PNone => LeafReadsBack(v, rest);
    case PBool(_) => LeafReadsBack(v, rest);
    case PInt(_) => LeafReadsBack(v, rest);
    case PStr(_) => LeafReadsBack(v, rest);
    case PID(_) => LeafReadsBack(v, rest);
    case PEnumMember(_, _, _) => LeafReadsBack(v, rest);
    case PList(items) => ListReadsBack(items, rest);
    case PFloat(_) =>
    case PDict(_) =>
    case PObject(_, _) =>
    case PScalar(_, _) =>
    case FloatW(_) =>
    case IntW(_) => ObjectReadsBack(v, rest);
    case BooleanW(_) => ObjectReadsBack(v, rest);
    case StringW(_, _) => ObjectReadsBack(v, rest);
    case NullableW(_, _) => ObjectReadsBack(v, rest);
    case AnyScalarW(_, _) => ObjectReadsBack(v, rest);
    case ListW(_, _) => ObjectReadsBack(v, rest);
    case InputObjectW(_, _) => ObjectReadsBack(v, rest);
  }

  /** The plain values that dump to a single token. */
  lemma LeafReadsBack(v: PyValue, rest: string)
    requires v.PNone? || v.PBool? || v.PInt? || v.PStr? || v.PID? || v.PEnumMember?
    requires Denotes(v).Some? && Delimited(rest)
    ensures DumpInputValue(v).Returned? && Opens(DumpInputValue(v).value)
    ensures ParseValue(DumpInputValue(v).value + rest) == Some((Denotes(v).value, rest))
  {
    match v
    case PNone => ReadsName("null", rest);
    case PBool(b) => if b { ReadsName("true", rest); } else { ReadsName("false", rest); }
    case PInt(i) => ReadsInt(i, rest); IntToStringRoundTrip(i);
    case PStr(s) => ReadsString(s, rest);
    case PID(s) => ReadsString(s, rest);
    case PEnumMember(_, _, value) => ReadsName(value, rest); NameOpens(value);
  }

  lemma ListReadsBack(items: seq<PyValue>, rest: string)
    requires DenotesItems(items).Some?
    ensures DumpItems(Escape.EscapeFull, items).Returned?
    ensures var text := "[" + Join(" ", DumpItems(Escape.EscapeFull, items).value) + "]";
      ParseValue(text + rest) == Some((LList(DenotesItems(items).value), rest))
    decreases items, 1
  {
    ItemsReadBack(items, rest);
    var ps := DumpItems(Escape.EscapeFull, items).value;
    var t := Join(" ", ps) + "]" + rest;
    ParseBracket(t);
    Assoc4("[", Join(" ", ps), "]", rest);
    assert |ps| > 0 ==> |items| > 0 by {
      if |items| == 0 {
        assert ps == [];
      }
    }
    BodyStarts(ps, "]", rest);
  }

  /** The text after the first item of a list: the closing bracket, or a
      space and the other items. */
  function ItemsAfter(ps: seq<string>, close: string, rest: string): string {
    if |ps| == 0 then close + rest else " " + Join(" ", ps) + close + rest
  }

  lemma JoinFirst(d: string, ps: seq<string>, close: string, rest: string)
    ensures Join(" ", [d] + ps) + close + rest == d + ItemsAfter(ps, close, rest)
  {
    if |ps| == 0 {
      assert [d] + ps == [d];
    } else {
      JoinCons(" ", d, ps);
    }
  }

  lemma AfterDelimited(ps: seq<string>, close: string, rest: string)
    requires close == "]" || close == "}"
    requires |ps| > 0 ==> Opens(Join(" ", ps))
    ensures Delimited(ItemsAfter(ps, close, rest))
    ensures SkipIgnored(ItemsAfter(ps, close, rest)) == Join(" ", ps) + close + rest
  {
    if |ps| > 0 {
      AfterSpace(ps, close, rest);
    } else {
      AfterClose(ps, close, rest);
    }
  }

  lemma AfterClose(ps: seq<string>, close: string, rest: string)
    requires close == "]" || close == "}"
    requires |ps| == 0
    ensures Delimited(ItemsAfter(ps, close, rest))
    ensures SkipIgnored(ItemsAfter(ps, close, rest)) == Join(" ", ps) + close + rest
  {
    var t := close + rest;
    assert ItemsAfter(ps, close, rest) == t;
    assert Join(" ", ps) == "";
    assert t[0] == close[0];
    SkipIgnoredStops(t);
  }

  lemma AfterSpace(ps: seq<string>, close: string, rest: string)
    requires |ps| > 0 && Opens(Join(" ", ps))
    ensures SkipIgnored(ItemsAfter(ps, close, rest)) == Join(" ", ps) + close + rest
  {
    var j := Join(" ", ps);
    var t := j + close + rest;
    Assoc4(" ", j, close, rest);
    SkipIgnoredSpace(t);
    assert t[0] == j[0];
    SkipIgnoredStops(t);
  }

  lemma DumpItemsCons(items: seq<PyValue>)
    requires |items| > 0 && DumpInputValue(items[0]).Returned? && DumpItems(Escape.EscapeFull, items[1..]).Returned?
    ensures DumpItems(Escape.EscapeFull, items) == Returned([DumpInputValue(items[0]).value] + DumpItems(Escape.EscapeFull, items[1..]).value)
  {
  }

  lemma {:induction false} ItemsReadBack(items: seq<PyValue>, rest: string)
    requires DenotesItems(items).Some?
    ensures DumpItems(Escape.EscapeFull, items).Returned?
    ensures var parts := DumpItems(Escape.EscapeFull, items).value;
      && (|items| > 0 ==> Opens(Join(" ", parts)))
      && ParseItems(Join(" ", parts) + "]" + rest) == Some((DenotesItems(items).value, rest))
    decreases items, 0
  {
    if |items| == 0 {
      assert Join(" ", []) + "]" + rest == "]" + rest;
    } else {
      var x := items[0];
      var tail := items[1..];
      ItemsReadBack(tail, rest);
      var ps := DumpItems(Escape.EscapeFull, tail).value;
      var after := ItemsAfter(ps, "]", rest);
      AfterDelimited(ps, "]", rest);
      DumpReadsBack(x, after);
      var d := DumpInputValue(x).value;
      DumpItemsCons(items);
      JoinOpens(" ", [d] + ps);
      JoinFirst(d, ps, "]", rest);
      ParseItemsCons(d, after, Denotes(x).value, DenotesItems(tail).value, rest);
    }
  }

  lemma {:induction false} ObjectReadsBack(v: PyValue, rest: string)
    requires DenotesObject(v).Some? && Delimited(rest)
    ensures GqlDump(Escape.EscapeFull, v).Returned? && Opens(GqlDump(Escape.EscapeFull, v).value)
    ensures ParseValue(GqlDump(Escape.EscapeFull, v).value + rest) == Some((DenotesObject(v).value, rest))
    decreases v, 1
  {
    match v
    case IntW(_) => ObjectLeafReadsBack(v, rest);
    case BooleanW(_) => ObjectLeafReadsBack(v, rest);
    case StringW(_, _) => ObjectLeafReadsBack(v, rest);
    case PEnumMember(_, _, _) => ObjectLeafReadsBack(v, rest);
    case NullableW(_, inner) => if inner.PNone? { ReadsName("null", rest); } else { ObjectReadsBack(inner, rest); }
    case AnyScalarW(_, inner) => if inner.PNone? { ReadsName("null", rest); } else { ObjectReadsBack(inner, rest); }
    case ListW(_, _) => ObjectListReadsBack(v, rest);
    case InputObjectW(_, _) => InputObjectReadsBack(v, rest);
    case PNone =>
    case PBool(_) =>
    case PInt(_) =>
    case PFloat(_) =>
    case PStr(_) =>
    case PID(_) =>
    case PList(_) =>
    case PDict(_) =>
    case PScalar(_, _) =>
    case PObject(_, _) =>
    case FloatW(_) =>
  }

  /** The instances that dump to a single token. */
  lemma ObjectLeafReadsBack(v: PyValue, rest: string)
    requires v.IntW? || v.BooleanW? || v.StringW? || v.PEnumMember?
    requires DenotesObject(v).Some? && Delimited(rest)
    ensures GqlDump(Escape.EscapeFull, v).Returned? && Opens(GqlDump(Escape.EscapeFull, v).value)
    ensures ParseValue(GqlDump(Escape.EscapeFull, v).value + rest) == Some((DenotesObject(v).value, rest))
  {
    match v
    case IntW(i) => ReadsInt(i, rest); IntToStringRoundTrip(i);
    case BooleanW(b) => if b { ReadsName("true", rest); } else { ReadsName("false", rest); }
    case StringW(_, s) => ReadsString(s, rest);
    case PEnumMember(_, _, value) => ReadsName(value, rest); NameOpens(value);
  }

  lemma ObjectListReadsBack(v: PyValue, rest: string)
    requires v.ListW? && DenotesObject(v).Some?
    ensures GqlDump(Escape.EscapeFull, v).Returned? && Opens(GqlDump(Escape.EscapeFull, v).value)
    ensures ParseValue(GqlDump(Escape.EscapeFull, v).value + rest) == Some((DenotesObject(v).value, rest))
    decreases v, 0
  {
    var items := v.items;
    ObjectItemsReadBack(items, rest);
    var ps := GqlDumpItems(Escape.EscapeFull, items).value;
    var t := Join(" ", ps) + "]" + rest;
    ParseBracket(t);
    Assoc4("[", Join(" ", ps), "]", rest);
    assert |ps| > 0 ==> |items| > 0 by {
      if |items| == 0 {
        assert ps == [];
      }
    }
    BodyStarts(ps, "]", rest);
  }

  lemma GqlDumpItemsCons(items: seq<PyValue>)
    requires |items| > 0 && GqlDump(Escape.EscapeFull, items[0]).Returned? && GqlDumpItems(Escape.EscapeFull, items[1..]).Returned?
    ensures GqlDumpItems(Escape.EscapeFull, items) == Returned([GqlDump(Escape.EscapeFull, items[0]).value] + GqlDumpItems(Escape.EscapeFull, items[1..]).value)
  {
  }

  lemma {:induction false} ObjectItemsReadBack(items: seq<PyValue>, rest: string)
    requires DenotesObjectItems(items).Some?
    ensures GqlDumpItems(Escape.EscapeFull, items).Returned?
    ensures var parts := GqlDumpItems(Escape.EscapeFull, items).value;
      && (|items| > 0 ==> Opens(Join(" ", parts)))
      && ParseItems(Join(" ", parts) + "]" + rest) == Some((DenotesObjectItems(items).value, rest))
    decreases items, 0
  {
    if |items| == 0 {
      assert Join(" ", []) + "]" + rest == "]" + rest;
    } else {
      var x := items[0];
      var tail := items[1..];
      ObjectItemsReadBack(tail, rest);
      var ps := GqlDumpItems(Escape.EscapeFull, tail).value;
      var after := ItemsAfter(ps, "]", rest);
      AfterDelimited(ps, "]", rest);
      ObjectReadsBack(x, after);
      var d := GqlDump(Escape.EscapeFull, x).value;
      GqlDumpItemsCons(items);
      JoinOpens(" ", [d] + ps);
      JoinFirst(d, ps, "]", rest);
      ParseItemsCons(d, after, DenotesObject(x).value, DenotesObjectItems(tail).value, rest);
    }
  }

  lemma InputObjectReadsBack(v: PyValue, rest: string)
    requires v.InputObjectW? && DenotesObject(v).Some?
    ensures GqlDump(Escape.EscapeFull, v).Returned? && Opens(GqlDump(Escape.EscapeFull, v).value)
    ensures ParseValue(GqlDump(Escape.EscapeFull, v).value + rest) == Some((DenotesObject(v).value, rest))
    decreases v, 0, |v.fields| + 1
  {
    FieldsReadBack(v, 0, rest);
    var ps := DumpFields(Escape.EscapeFull, v, 0).value;
    InputObjectDumps(v);
    assert |ps| > 0 ==> |v.fields| > 0;
    BodyStarts(ps, "}", rest);
    BracedReadsBack(Join(" ", ps), DenotesFields(v, 0).value, rest);
  }

  /** An input object dumps as its fields between braces, and stands for the object literal of their literals. */
  lemma InputObjectDumps(v: PyValue)
    requires v.InputObjectW? && DumpFields(Escape.EscapeFull, v, 0).Returned? && DenotesFields(v, 0).Some?
    ensures GqlDump(Escape.EscapeFull, v) == Returned("{" + Join(" ", DumpFields(Escape.EscapeFull, v, 0).value) + "}")
    ensures DenotesObject(v) == Some(LObject(DenotesFields(v, 0).value))
  {
  }

  /** Fields between braces read back as an object literal. */
  lemma BracedReadsBack(body: string, fields: seq<(string, Lit)>, rest: string)
    requires SkipIgnored(body + "}" + rest) == body + "}" + rest
    requires ParseFields(body + "}" + rest) == Some((fields, rest))
    ensures Opens("{" + body + "}")
    ensures ParseValue("{" + body + "}" + rest) == Some((LObject(fields), rest))
  {
    ParseBrace(body + "}" + rest);
    Assoc4("{", body, "}", rest);
  }

  /** The text after an opening bracket starts where its first item or its closing bracket does. */
  lemma BodyStarts(ps: seq<string>, close: string, rest: string)
    requires close == "]" || close == "}"
    requires |ps| > 0 ==> Opens(Join(" ", ps))
    ensures SkipIgnored(Join(" ", ps) + close + rest) == Join(" ", ps) + close + rest
  {
    var t := Join(" ", ps) + close + rest;
    if |ps| > 0 {
      assert t[0] == Join(" ", ps)[0];
    } else {
      assert t == close + rest;
      assert t[0] == close[0];
    }
    SkipIgnoredStops(t);
  }

  lemma DumpFieldsCons(v: PyValue, i: nat)
    requires v.InputObjectW? && i < |v.fields|
    requires DumpInputValue(v.fields[i].1).Returned? && DumpFields(Escape.EscapeFull, v, i + 1).Returned?
    ensures DumpFields(Escape.EscapeFull, v, i) == Returned([v.fields[i].0 + ": " + DumpInputValue(v.fields[i].1).value] + DumpFields(Escape.EscapeFull, v, i + 1).value)
  {
  }

  lemma {:induction false} FieldsReadBack(v: PyValue, i: nat, rest: string)
    requires v.InputObjectW? && i <= |v.fields| && DenotesFields(v, i).Some?
    ensures DumpFields(Escape.EscapeFull, v, i).Returned?
    ensures var parts := DumpFields(Escape.EscapeFull, v, i).value;
      && (i < |v.fields| ==> Opens(Join(" ", parts)))
      && ParseFields(Join(" ", parts) + "}" + rest) == Some((DenotesFields(v, i).value, rest))
    decreases v, 0, |v.fields| - i
  {
    if i == |v.fields| {
      assert Join(" ", []) + "}" + rest == "}" + rest;
    } else {
      var name := v.fields[i].0;
      var x := v.fields[i].1;
      FieldsReadBack(v, i + 1, rest);
      var ps := DumpFields(Escape.EscapeFull, v, i + 1).value;
      var after := ItemsAfter(ps, "}", rest);
      AfterDelimited(ps, "}", rest);
      DumpReadsBack(x, after);
      var d := DumpInputValue(x).value;
      DumpFieldsCons(v, i);
      FieldThenFields(name, d, ps, rest, Denotes(x).value, DenotesFields(v, i + 1).value);
    }
  }

  /** A dumped `name: value` field ahead of the dumped fields that follow it. */
  lemma FieldThenFields(name: string, d: string, ps: seq<string>, rest: string, x: Lit, more: seq<(string, Lit)>)
    requires IsName(name) && Opens(d)
    requires ParseValue(d + ItemsAfter(ps, "}", rest)) == Some((x, ItemsAfter(ps, "}", rest)))
    requires ParseFields(SkipIgnored(ItemsAfter(ps, "}", rest))) == Some((more, rest))
    ensures Opens(Join(" ", [name + ": " + d] + ps))
    ensures ParseFields(Join(" ", [name + ": " + d] + ps) + "}" + rest) == Some(([(name, x)] + more, rest))
  {
    var after := ItemsAfter(ps, "}", rest);
    var piece := name + ": " + d;
    NameOpens(name);
    assert piece[0] == name[0];
    JoinOpens(" ", [piece] + ps);
    JoinFirst(piece, ps, "}", rest);
    assert piece + after == name + ": " + d + after;
    ParseFieldsCons(name, d, after, x, more, rest);
  }

  // ---------------------------------------------------------------------
  // Where the code as written and the corrected model part

  /** A field with one argument and no sub-selection renders as `name(k: v)`. */
  lemma OneArgField(name: string, k: string, v: PyValue, d: string, dump: Dumper, indent: Indenter, aliases: bool)
    requires dump(v) == Returned(d)
    ensures RenderItem(Field(name, [(k, v)], NoSelections, None), dump, indent, aliases) == Returned(name + "(" + k + ": " + d + ")")
  {
    var kw := [(k, v)];
    var r := RenderArgs(kw, dump).value;
    assert r == [k + ": " + d];
    assert RenderArguments(kw, dump) == Returned("(" + (k + ": " + d) + ")");
    assert RenderSet(NoSelections, dump, indent, aliases) == Returned("");
    assert AliasPrefix(None, aliases) == "";
    assert "" + name + ("(" + (k + ": " + d) + ")") + "" == name + "(" + k + ": " + d + ")";
  }

  /** A set of one selection renders as a block of that selection, indented. */
  lemma SingleSet(s: Selection, text: string, dump: Dumper, indent: Indenter, aliases: bool)
    requires RenderItem(s, dump, indent, aliases) == Returned(text)
    ensures RenderSet(SelectionSet([s]), dump, indent, aliases) == Returned("{\n" + indent(text, Indentation) + "\n}")
  {
    var ss := SelectionSet([s]);
    RenderSetUnfold(ss, dump, indent, aliases);
    assert RenderItems(ss, 1, dump, indent, aliases) == Returned([]);
    assert ss.items[0] == s;
    assert [indent(text, Indentation)] + [] == [indent(text, Indentation)];
    assert RenderItems(ss, 0, dump, indent, aliases) == Returned([indent(text, Indentation)]);
    assert Join("\n", [indent(text, Indentation)]) == indent(text, Indentation);
  }

  /** A string without characters `escape` rewrites serialises the same way under both escapings. */
  lemma PlainStringDumps(s: string)
    requires forall i | 0 <= i < |s| :: !Escape.IsEscaped(s[i]) && !Escape.IsControl(s[i])
    ensures DumpInputValue(PStr(s)) == Returned("\"" + s + "\"")
    ensures DumpInputValueAsWritten(PStr(s)) == Returned("\"" + s + "\"")
  {
    Escape.EscapeFixedPoints(s);
    Escape.EscapeFullAgrees(s);
  }

  const LineSeparator: char := 0x2028 as char

  /** `foo(a: "x<U+2028>y")`: a string argument holding a line separator. */
  const SeparatorQuery: SelectionSet := SelectionSet([Field("foo", [("a", PStr("x" + [LineSeparator] + "y"))], NoSelections, None)])

  /** The text of that field before and after the separator. */
  const SeparatorHead: string := "foo(a: \"x"
  const SeparatorTail: string := "y\")"

  lemma SeparatorPieces()
    ensures forall i | 0 <= i < |SeparatorHead| :: !IsLineBoundary(SeparatorHead[i])
    ensures forall i | 0 <= i < |SeparatorTail| :: !IsLineBoundary(SeparatorTail[i])
    ensures !IsSpace(SeparatorHead[0]) && !IsSpace(SeparatorTail[0])
  {
  }

  lemma SeparatorItem()
    ensures var q := "\"" + ("x" + [LineSeparator] + "y") + "\"";
      "foo" + "(" + "a" + ": " + q + ")" == SeparatorHead + [LineSeparator] + SeparatorTail
  {
  }

  lemma SeparatorLine()
    ensures var item := SeparatorHead + [LineSeparator] + SeparatorTail;
      NoNewline(item) && !AllSpace(item)
  {
    var item := SeparatorHead + [LineSeparator] + SeparatorTail;
    assert !IsSpace(item[0]);
  }

  /** `textwrap.indent` cuts the line inside the string literal and indents
      its second half, so the query sends a different string; indenting at
      newlines keeps the literal intact. */
  lemma SeparatorIndented()
    ensures GqlAsWritten(SeparatorQuery) == Returned("{\n" + (Indentation + (SeparatorHead + [LineSeparator]) + (Indentation + SeparatorTail)) + "\n}")
    ensures Gql(SeparatorQuery) == Returned("{\n" + (Indentation + (SeparatorHead + [LineSeparator] + SeparatorTail)) + "\n}")
  {
    SeparatorAsWritten();
    SeparatorCorrected();
  }

  lemma SeparatorAsWritten()
    ensures GqlAsWritten(SeparatorQuery) == Returned("{\n" + (Indentation + (SeparatorHead + [LineSeparator]) + (Indentation + SeparatorTail)) + "\n}")
  {
    var s := "x" + [LineSeparator] + "y";
    PlainStringDumps(s);
    var q := "\"" + s + "\"";
    var f := Field("foo", [("a", PStr(s))], NoSelections, None);
    assert SeparatorQuery == SelectionSet([f]);
    OneArgField("foo", "a", PStr(s), q, DumpInputValueAsWritten, Indent, true);
    var item := SeparatorHead + [LineSeparator] + SeparatorTail;
    SeparatorItem();
    SingleSet(f, item, DumpInputValueAsWritten, Indent, true);
    SeparatorPieces();
    IndentTwoLines(SeparatorHead, LineSeparator, SeparatorTail, Indentation);
  }

  lemma SeparatorCorrected()
    ensures Gql(SeparatorQuery) == Returned("{\n" + (Indentation + (SeparatorHead + [LineSeparator] + SeparatorTail)) + "\n}")
  {
    var s := "x" + [LineSeparator] + "y";
    PlainStringDumps(s);
    var q := "\"" + s + "\"";
    var f := Field("foo", [("a", PStr(s))], NoSelections, None);
    assert SeparatorQuery == SelectionSet([f]);
    OneArgField("foo", "a", PStr(s), q, DumpInputValue, IndentAtNewlines, true);
    var item := SeparatorHead + [LineSeparator] + SeparatorTail;
    SeparatorItem();
    SingleSet(f, item, DumpInputValue, IndentAtNewlines, true);
    SeparatorLine();
    IndentJoin([item], Indentation);
    assert IndentAtNewlines(item, Indentation) == Indentation + item;
  }

  /** `escape` leaves a control character bare, so the string literal
      `dump_inputvalue` writes for it is not one a GraphQL reader accepts;
      with every control character escaped it reads back (`DumpReadsBack`). */
  lemma ControlCharacterDump()
    ensures DumpInputValueAsWritten(PStr([1 as char])) == Returned("\"" + [1 as char] + "\"")
    ensures ParseValue(DumpInputValueAsWritten(PStr([1 as char])).value) == None
    ensures ParseValue(DumpInputValue(PStr([1 as char])).value) == Some((LString([1 as char]), ""))
  {
    Escape.EscapeLeavesControlCharacters();
    var t := "\"" + [1 as char] + "\"";
    assert t[1..] == [1 as char] + "\"";
    assert BodyLength(t[1..]) == Some(1) by {
      assert t[1..][1..] == "\"";
    }
    assert t[1..2] == [1 as char];
    DumpReadsBack(PStr([1 as char]), "");
    assert DumpInputValue(PStr([1 as char])).value + "" == DumpInputValue(PStr([1 as char])).value;
  }
}
