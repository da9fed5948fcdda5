/** Selection sets, the immutable trees the query builders of quiz/build.py,
    src/quiz/build.py and quiz/core.py extend, and their rendering as
    GraphQL text. Every revision renders the same way apart from how it
    serialises argument values and whether fields carry an alias, so the
    renderer here takes those two as parameters. */
module Selections {
  import opened Exceptions
  import opened Results
  import opened Values
  import opened Text

  datatype Selection =
    | Field(name: string, kwargs: seq<(string, PyValue)>, selectionSet: SelectionSet, alias: Option<string>)
    | InlineFragment(on: string, selectionSet: SelectionSet)

  /** Selection sets compare as sequences: equal items in the same order. */
  datatype SelectionSet = SelectionSet(items: seq<Selection>)

  const NoSelections: SelectionSet := SelectionSet([])

  /** `Field(name)`: no arguments, no sub-selection, no alias. */
  function Bare(name: string): Selection {
    Field(name, [], NoSelections, None)
  }

  function Append(ss: SelectionSet, s: Selection): SelectionSet {
    SelectionSet(ss.items + [s])
  }

  /** `ss` with its last selection replaced by `s`. */
  function WithLast(ss: SelectionSet, s: Selection): SelectionSet
    requires |ss.items| > 0
  {
    SelectionSet(ss.items[..|ss.items| - 1] + [s])
  }

  /** What calling a selection set returns: a selection set, or the
      `_AliasForNextField` object that aliases the next field appended. */
  datatype Called = Extended(selections: SelectionSet) | AliasForNext(base: SelectionSet, alias: string)

  // ---------------------------------------------------------------------
  // Rendering

  const Indentation: string := "  "

  /** How a revision serialises one argument value. */
  type Dumper = PyValue -> Raising<string>

  /** How a revision indents the text of one selection. */
  type Indenter = (string, string) -> string

  /** The `k: v` pieces of an argument list, in argument order; the first value
      that cannot be serialised raises. */
  function RenderArgs(kwargs: seq<(string, PyValue)>, dump: Dumper): (r: Raising<seq<string>>)
    ensures r.Returned? <==> forall k | 0 <= k < |kwargs| :: dump(kwargs[k].1).Returned?
    ensures r.Returned? ==> |r.value| == |kwargs| && forall k | 0 <= k < |kwargs| ::
      r.value[k] == kwargs[k].0 + ": " + dump(kwargs[k].1).value
    ensures r.Raised? ==> exists k | 0 <= k < |kwargs| ::
      && dump(kwargs[k].1) == Raised(r.exc)
      && forall j | 0 <= j < k :: dump(kwargs[j].1).Returned?
  {
    if |kwargs| == 0 then Returned([])
    else
      var first :- dump(kwargs[0].1);
      var rest :- RenderArgs(kwargs[1..], dump);
      Returned([kwargs[0].0 + ": " + first] + rest)
  }

  /** `(k: v, ...)` after a field name, nothing when there are no arguments. */
  function RenderArguments(kwargs: seq<(string, PyValue)>, dump: Dumper): Raising<string> {
    if |kwargs| == 0 then Returned("")
    else
      var pieces :- RenderArgs(kwargs, dump);
      Returned("(" + Join(", ", pieces) + ")")
  }

  /** `alias: ` before a field name when the field has a non-empty alias. */
  function AliasPrefix(alias: Option<string>, aliases: bool): string {
    if aliases && alias.Some? && |alias.value| > 0 then alias.value + ": " else ""
  }

  /** `SelectionSet.__gql__`: nothing for an empty set, else a brace block
      with every selection indented on its own lines. */
  function RenderSet(ss: SelectionSet, dump: Dumper, indent: Indenter, aliases: bool): Raising<string>
    decreases ss, 2, 0
  {
    if |ss.items| == 0 then Returned("")
    else
      var lines :- RenderItems(ss, 0, dump, indent, aliases);
      Returned("{\n" + Join("\n", lines) + "\n}")
  }

  /** The indented renderings of the selections from index `i` on. */
  function RenderItems(ss: SelectionSet, i: nat, dump: Dumper, indent: Indenter, aliases: bool): (r: Raising<seq<string>>)
    requires i <= |ss.items|
    ensures r.Returned? ==> |r.value| == |ss.items| - i
    decreases ss, 1, |ss.items| - i
  {
    if i == |ss.items| then Returned([])
    else
      var first :- RenderItem(ss.items[i], dump, indent, aliases);
      var rest :- RenderItems(ss, i + 1, dump, indent, aliases);
      Returned([indent(first, Indentation)] + rest)
  }

  /** `Field.__gql__` and `InlineFragment.__gql__`. */
  function RenderItem(s: Selection, dump: Dumper, indent: Indenter, aliases: bool): Raising<string>
    decreases s, 0, 0
  {
    match s
    case Field(name, kwargs, sub, alias) =>
      var arguments :- RenderArguments(kwargs, dump);
      var block :- RenderSet(sub, dump, indent, aliases);
      Returned(AliasPrefix(alias, aliases) + name + arguments + (if |sub.items| > 0 then " " + block else ""))
    case InlineFragment(on, sub) =>
      var block :- RenderSet(sub, dump, indent, aliases);
      Returned("... on " + on + " " + block)
  }

  // ---------------------------------------------------------------------
  // The layout of rendered text, line by line

  /** The lines of a brace block whose `{` ends the line before it: the
      selections one level deeper than `pad`, then the closing brace at `pad`. */
  function BlockLines(ss: SelectionSet, pad: string, dump: Dumper, aliases: bool): (r: Raising<seq<string>>)
    ensures r.Returned? ==> |r.value| > 0 && r.value[|r.value| - 1] == pad + "}"
    decreases ss, 2, 0
  {
    var items :- ItemsLines(ss, 0, pad + Indentation, dump, aliases);
    Returned(items + [pad + "}"])
  }

  function ItemsLines(ss: SelectionSet, i: nat, pad: string, dump: Dumper, aliases: bool): (r: Raising<seq<string>>)
    requires i <= |ss.items|
    ensures r.Returned? && i < |ss.items| ==> |r.value| > 0
    decreases ss, 1, |ss.items| - i
  {
    if i == |ss.items| then Returned([])
    else
      var first :- ItemLines(ss.items[i], pad, dump, aliases);
      var rest :- ItemsLines(ss, i + 1, pad, dump, aliases);
      Returned(first + rest)
  }

  /** The lines of one selection at indentation `pad`: its head line, and
      when it has a sub-selection, the block of that. */
  function ItemLines(s: Selection, pad: string, dump: Dumper, aliases: bool): (r: Raising<seq<string>>)
    ensures r.Returned? ==> |r.value| > 0
    decreases s, 0, 0
  {
    match s
    case Field(name, kwargs, sub, alias) =>
      var arguments :- RenderArguments(kwargs, dump);
      var head := pad + AliasPrefix(alias, aliases) + name + arguments;
      if |sub.items| == 0 then Returned([head])
      else
        var block :- BlockLines(sub, pad, dump, aliases);
        Returned([head + " {"] + block)
    case InlineFragment(on, sub) =>
      if |sub.items| == 0 then Returned([pad + "... on " + on + " "])
      else
        var block :- BlockLines(sub, pad, dump, aliases);
        Returned([pad + "... on " + on + " {"] + block)
  }

  function JoinLines(r: Raising<seq<string>>): Raising<string> {
    match r
    case Returned(lines) => Returned(Join("\n", lines))
    case Raised(e) => Raised(e)
  }

  function Shifted(r: Raising<seq<string>>, prefix: string): Raising<seq<string>> {
    match r
    case Returned(lines) => Returned(PrefixEach(lines, prefix))
    case Raised(e) => Raised(e)
  }

  /** A GraphQL `Name` (section 2.1.9 of the GraphQL specification, June 2018). */
  predicate IsName(s: string) {
    && |s| > 0
    && (s[0] == '_' || 'A' <= s[0] <= 'Z' || 'a' <= s[0] <= 'z')
    && forall i | 1 <= i < |s| :: s[i] == '_' || 'A' <= s[i] <= 'Z' || 'a' <= s[i] <= 'z' || '0' <= s[i] <= '9'
  }

  /** A serialised argument value does not span several lines. */
  predicate DumpsOneLine(dump: Dumper, v: PyValue) {
    dump(v).Returned? ==> NoNewline(dump(v).value)
  }

  /** Every name in the tree (fields, aliases, argument names, fragment
      types) is a GraphQL name, and every argument value serialises to a
      single line. */
  predicate WellFormedSet(ss: SelectionSet, dump: Dumper)
    decreases ss, 1
  {
    forall i | 0 <= i < |ss.items| :: WellFormedItem(ss.items[i], dump)
  }

  predicate WellFormedItem(s: Selection, dump: Dumper)
    decreases s, 0
  {
    match s
    case Field(name, kwargs, sub, alias) =>
      && IsName(name)
      && (alias.Some? && |alias.value| > 0 ==> IsName(alias.value))
      && (forall k | 0 <= k < |kwargs| :: IsName(kwargs[k].0) && DumpsOneLine(dump, kwargs[k].1))
      && WellFormedSet(sub, dump)
    case InlineFragment(on, sub) => IsName(on) && WellFormedSet(sub, dump)
  }


  /** The selection's lines at any indentation are its lines at a smaller
      indentation, each prefixed with the difference. */
  lemma {:induction false} ItemLinesShift(s: Selection, p: string, q: string, dump: Dumper, aliases: bool)
    ensures ItemLines(s, p + q, dump, aliases) == Shifted(ItemLines(s, q, dump, aliases), p)
    decreases s, 0, 0
  {
    BlockLinesShift(s.selectionSet, p, q, dump, aliases);
    match s
    case Field(_, _, _, _) => FieldLinesShift(s, p, q, dump, aliases);
    case InlineFragment(_, _) => FragmentLinesShift(s, p, q, dump, aliases);
  }

  lemma FieldLinesShift(s: Selection, p: string, q: string, dump: Dumper, aliases: bool)
    requires s.Field?
    requires BlockLines(s.selectionSet, p + q, dump, aliases) == Shifted(BlockLines(s.selectionSet, q, dump, aliases), p)
    ensures ItemLines(s, p + q, dump, aliases) == Shifted(ItemLines(s, q, dump, aliases), p)
  {
    var arguments := RenderArguments(s.kwargs, dump);
    if arguments.Returned? {
      var head := q + AliasPrefix(s.alias, aliases) + s.name + arguments.value;
      assert (p + q) + AliasPrefix(s.alias, aliases) + s.name + arguments.value == p + head;
      if |s.selectionSet.items| == 0 {
        assert PrefixEach([head], p) == [p + head];
      } else {
        var b := BlockLines(s.selectionSet, q, dump, aliases);
        if b.Returned? {
          assert (p + head) + " {" == p + (head + " {");
          assert PrefixEach([head + " {"] + b.value, p) == [p + (head + " {")] + PrefixEach(b.value, p);
        }
      }
    }
  }

  lemma FragmentLinesShift(s: Selection, p: string, q: string, dump: Dumper, aliases: bool)
    requires s.InlineFragment?
    requires BlockLines(s.selectionSet, p + q, dump, aliases) == Shifted(BlockLines(s.selectionSet, q, dump, aliases), p)
    ensures ItemLines(s, p + q, dump, aliases) == Shifted(ItemLines(s, q, dump, aliases), p)
  {
    if |s.selectionSet.items| > 0 {
      var b := BlockLines(s.selectionSet, q, dump, aliases);
      if b.Returned? {
        Assoc5(p, q, "... on ", s.on, " {");
        PrefixEachCons(q + "... on " + s.on + " {", b.value, p);
      }
    } else {
      Assoc5(p, q, "... on ", s.on, " ");
      var line := q + "... on " + s.on + " ";
      assert PrefixEach([line], p) == [p + line];
    }
  }

  lemma {:induction false} BlockLinesShift(ss: SelectionSet, p: string, q: string, dump: Dumper, aliases: bool)
    ensures BlockLines(ss, p + q, dump, aliases) == Shifted(BlockLines(ss, q, dump, aliases), p)
    decreases ss, 2, 0
  {
    assert p + q + Indentation == p + (q + Indentation);
    ItemsLinesShift(ss, 0, p, q + Indentation, dump, aliases);
    var items := ItemsLines(ss, 0, q + Indentation, dump, aliases);
    if items.Returned? {
      assert p + q + "}" == p + (q + "}");
      assert PrefixEach(items.value + [q + "}"], p) == PrefixEach(items.value, p) + [p + (q + "}")];
    }
  }

  lemma PrefixEachAppend(a: seq<string>, b: seq<string>, p: string)
    ensures PrefixEach(a + b, p) == PrefixEach(a, p) + PrefixEach(b, p)
  {
  }

  lemma {:induction false} ItemsLinesShift(ss: SelectionSet, i: nat, p: string, q: string, dump: Dumper, aliases: bool)
    requires i <= |ss.items|
    ensures ItemsLines(ss, i, p + q, dump, aliases) == Shifted(ItemsLines(ss, i, q, dump, aliases), p)
    decreases ss, 1, |ss.items| - i
  {
    if i < |ss.items| {
      ItemLinesShift(ss.items[i], p, q, dump, aliases);
      ItemsLinesShift(ss, i + 1, p, q, dump, aliases);
      var first := ItemLines(ss.items[i], q, dump, aliases);
      var rest := ItemsLines(ss, i + 1, q, dump, aliases);
      if first.Returned? && rest.Returned? {
        PrefixEachAppend(first.value, rest.value, p);
        assert ItemsLines(ss, i, q, dump, aliases) == Returned(first.value + rest.value);
        assert ItemsLines(ss, i, p + q, dump, aliases) == Returned(PrefixEach(first.value, p) + PrefixEach(rest.value, p));
      }
    }
  }

  predicate IsNameChar(c: char) {
    c == '_' || 'A' <= c <= 'Z' || 'a' <= c <= 'z' || '0' <= c <= '9'
  }

  lemma NameOneLine(n: string)
    requires IsName(n)
    ensures NoNewline(n) && !IsSpace(n[0])
  {
  }

  /** A line made of an indentation and text that starts with a visible character. */
  lemma IndentedLineGood(pad: string, text: string)
    requires NoNewline(pad) && NoNewline(text)
    requires |text| > 0 && !IsSpace(text[0])
    ensures GoodLine(pad + text)
  {
    NoNewlineAppend(pad, text);
    assert (pad + text)[|pad|] == text[0];
  }

  lemma {:induction false} ArgsOneLine(kwargs: seq<(string, PyValue)>, dump: Dumper)
    requires forall k | 0 <= k < |kwargs| :: IsName(kwargs[k].0) && DumpsOneLine(dump, kwargs[k].1)
    ensures RenderArgs(kwargs, dump).Returned? ==>
      forall i | 0 <= i < |RenderArgs(kwargs, dump).value| :: NoNewline(RenderArgs(kwargs, dump).value[i])
  {
    if |kwargs| > 0 && RenderArgs(kwargs, dump).Returned? {
      ArgsOneLine(kwargs[1..], dump);
      var v := dump(kwargs[0].1).value;
      NameOneLine(kwargs[0].0);
      NoNewlineAppend(kwargs[0].0, ": ");
      NoNewlineAppend(kwargs[0].0 + ": ", v);
    }
  }

  lemma ArgumentsOneLine(kwargs: seq<(string, PyValue)>, dump: Dumper)
    requires forall k | 0 <= k < |kwargs| :: IsName(kwargs[k].0) && DumpsOneLine(dump, kwargs[k].1)
    ensures RenderArguments(kwargs, dump).Returned? ==> NoNewline(RenderArguments(kwargs, dump).value)
  {
    if |kwargs| > 0 && RenderArguments(kwargs, dump).Returned? {
      ArgsOneLine(kwargs, dump);
      var pieces := RenderArgs(kwargs, dump).value;
      NoNewlineJoin(", ", pieces);
      NoNewlineAppend("(", Join(", ", pieces));
      NoNewlineAppend("(" + Join(", ", pieces), ")");
    }
  }

  /** The head line of a field: its alias, name and arguments. */
  lemma FieldHeadGood(pad: string, s: Selection, arguments: string, tail: string, dump: Dumper, aliases: bool)
    requires s.Field? && WellFormedItem(s, dump)
    requires NoNewline(pad) && NoNewline(arguments) && NoNewline(tail)
    ensures GoodLine(pad + AliasPrefix(s.alias, aliases) + s.name + arguments + tail)
  {
    var prefix := AliasPrefix(s.alias, aliases);
    NameOneLine(s.name);
    if |prefix| > 0 {
      NameOneLine(s.alias.value);
      NoNewlineAppend(s.alias.value, ": ");
    }
    var text := prefix + s.name + arguments + tail;
    NoNewlineAppend(prefix, s.name);
    NoNewlineAppend(prefix + s.name, arguments);
    NoNewlineAppend(prefix + s.name + arguments, tail);
    assert text[0] == if |prefix| > 0 then s.alias.value[0] else s.name[0];
    IndentedLineGood(pad, text);
    assert pad + text == pad + AliasPrefix(s.alias, aliases) + s.name + arguments + tail;
  }

  /** Every line of a well-formed selection's layout is a proper line. */
  lemma {:induction false} ItemLinesGood(s: Selection, pad: string, dump: Dumper, aliases: bool)
    requires WellFormedItem(s, dump) && NoNewline(pad)
    ensures ItemLines(s, pad, dump, aliases).Returned? ==>
      forall i | 0 <= i < |ItemLines(s, pad, dump, aliases).value| :: GoodLine(ItemLines(s, pad, dump, aliases).value[i])
    decreases s, 0, 0
  {
    var r := ItemLines(s, pad, dump, aliases);
    if r.Returned? {
      match s
      case Field(name, kwargs, sub, alias) =>
        ArgumentsOneLine(kwargs, dump);
        var arguments := RenderArguments(kwargs, dump).value;
        if |sub.items| == 0 {
          FieldHeadGood(pad, s, arguments, "", dump, aliases);
          assert pad + AliasPrefix(alias, aliases) + name + arguments + "" == pad + AliasPrefix(alias, aliases) + name + arguments;
        } else {
          FieldHeadGood(pad, s, arguments, " {", dump, aliases);
          BlockLinesGood(sub, pad, dump, aliases);
        }
      case InlineFragment(on, sub) =>
        NameOneLine(on);
        var tail := if |sub.items| == 0 then " " else " {";
        NoNewlineAppend("... on ", on);
        NoNewlineAppend("... on " + on, tail);
        IndentedLineGood(pad, "... on " + on + tail);
        assert pad + ("... on " + on + tail) == pad + "... on " + on + tail;
        if |sub.items| > 0 {
          BlockLinesGood(sub, pad, dump, aliases);
        }
    }
  }

  lemma {:induction false} BlockLinesGood(ss: SelectionSet, pad: string, dump: Dumper, aliases: bool)
    requires WellFormedSet(ss, dump) && NoNewline(pad)
    ensures BlockLines(ss, pad, dump, aliases).Returned? ==>
      forall i | 0 <= i < |BlockLines(ss, pad, dump, aliases).value| :: GoodLine(BlockLines(ss, pad, dump, aliases).value[i])
    decreases ss, 2, 0
  {
    NoNewlineAppend(pad, Indentation);
    ItemsLinesGood(ss, 0, pad + Indentation, dump, aliases);
    IndentedLineGood(pad, "}");
  }

  lemma {:induction false} ItemsLinesGood(ss: SelectionSet, i: nat, pad: string, dump: Dumper, aliases: bool)
    requires i <= |ss.items|
    requires WellFormedSet(ss, dump) && NoNewline(pad)
    ensures ItemsLines(ss, i, pad, dump, aliases).Returned? ==>
      forall k | 0 <= k < |ItemsLines(ss, i, pad, dump, aliases).value| :: GoodLine(ItemsLines(ss, i, pad, dump, aliases).value[k])
    decreases ss, 1, |ss.items| - i
  {
    if i < |ss.items| {
      ItemLinesGood(ss.items[i], pad, dump, aliases);
      ItemsLinesGood(ss, i + 1, pad, dump, aliases);
    }
  }

  /** The text of a non-empty block, opening brace included. */
  function BlockText(r: Raising<seq<string>>): Raising<string> {
    match r
    case Returned(lines) => Returned("{\n" + Join("\n", lines))
    case Raised(e) => Raised(e)
  }

  /** `head` followed by rendered text; an exception passes through. */
  function Headed(head: string, r: Raising<string>): Raising<string> {
    match r
    case Returned(text) => Returned(head + text)
    case Raised(e) => Raised(e)
  }

  lemma RenderSetUnfold(ss: SelectionSet, dump: Dumper, indent: Indenter, aliases: bool)
    requires |ss.items| > 0
    ensures var r := RenderItems(ss, 0, dump, indent, aliases);
      RenderSet(ss, dump, indent, aliases) == if r.Raised? then Raised(r.exc) else Returned("{\n" + Join("\n", r.value) + "\n}")
  {
  }

  lemma BlockLinesUnfold(ss: SelectionSet, dump: Dumper, aliases: bool)
    ensures var r := ItemsLines(ss, 0, Indentation, dump, aliases);
      BlockLines(ss, "", dump, aliases) == if r.Raised? then Raised(r.exc) else Returned(r.value + ["}"])
  {
    assert "" + Indentation == Indentation;
    assert "" + "}" == "}";
  }

  lemma ClosingBrace(items: seq<string>)
    requires |items| > 0
    ensures "{\n" + Join("\n", items + ["}"]) == "{\n" + Join("\n", items) + "\n}"
  {
    JoinAppend("\n", items, ["}"]);
  }

  /** Rendering with indentation at newlines lays out every selection on its
      own lines, indented two spaces per level of nesting, with each closing
      brace on a line of its own at the level of the line that opened it. */
  lemma {:induction false} RenderSetLayout(ss: SelectionSet, dump: Dumper, aliases: bool)
    requires |ss.items| > 0
    requires WellFormedSet(ss, dump)
    ensures RenderSet(ss, dump, IndentAtNewlines, aliases) == BlockText(BlockLines(ss, "", dump, aliases))
    decreases ss, 2, 0
  {
    ItemsLayout(ss, 0, dump, aliases);
    RenderSetUnfold(ss, dump, IndentAtNewlines, aliases);
    BlockLinesUnfold(ss, dump, aliases);
    var items := ItemsLines(ss, 0, Indentation, dump, aliases);
    if items.Returned? {
      ClosingBrace(items.value);
    }
  }

  lemma {:induction false} ItemsLayout(ss: SelectionSet, i: nat, dump: Dumper, aliases: bool)
    requires i <= |ss.items|
    requires WellFormedSet(ss, dump)
    ensures JoinLines(RenderItems(ss, i, dump, IndentAtNewlines, aliases)) == JoinLines(ItemsLines(ss, i, Indentation, dump, aliases))
    decreases ss, 1, |ss.items| - i
  {
    if i < |ss.items| {
      var item := ss.items[i];
      ItemLayout(item, dump, aliases);
      assert Indentation + "" == Indentation;
      ItemLinesShift(item, Indentation, "", dump, aliases);
      ItemsLayout(ss, i + 1, dump, aliases);
      var lines := ItemLines(item, "", dump, aliases);
      if lines.Returned? {
        ItemLinesGood(item, "", dump, aliases);
        IndentJoin(lines.value, Indentation);
        var first := PrefixEach(lines.value, Indentation);
        var rest := RenderItems(ss, i + 1, dump, IndentAtNewlines, aliases);
        var restLines := ItemsLines(ss, i + 1, Indentation, dump, aliases);
        if rest.Returned? {
          assert restLines.Returned?;
          if i + 1 == |ss.items| {
            assert rest.value == [] && restLines.value == [];
            assert [IndentAtNewlines(Join("\n", lines.value), Indentation)] + rest.value == [Join("\n", first)];
            assert first + restLines.value == first;
          } else {
            JoinCons("\n", Join("\n", first), rest.value);
            JoinAppend("\n", first, restLines.value);
          }
        }
      }
    }
  }

  lemma {:induction false} ItemLayout(s: Selection, dump: Dumper, aliases: bool)
    requires WellFormedItem(s, dump)
    ensures RenderItem(s, dump, IndentAtNewlines, aliases) == JoinLines(ItemLines(s, "", dump, aliases))
    decreases s, 0, 1
  {
    if s.Field? {
      FieldLayout(s, dump, aliases);
    } else {
      FragmentLayout(s, dump, aliases);
    }
  }

  lemma RenderFieldUnfold(s: Selection, dump: Dumper, indent: Indenter, aliases: bool)
    requires s.Field?
    ensures var a := RenderArguments(s.kwargs, dump);
      var b := RenderSet(s.selectionSet, dump, indent, aliases);
      RenderItem(s, dump, indent, aliases) ==
        if a.Raised? then Raised(a.exc)
        else if b.Raised? then Raised(b.exc)
        else Returned(AliasPrefix(s.alias, aliases) + s.name + a.value + (if |s.selectionSet.items| > 0 then " " + b.value else ""))
  {
  }

  lemma FieldLinesUnfold(s: Selection, dump: Dumper, aliases: bool)
    requires s.Field?
    ensures var a := RenderArguments(s.kwargs, dump);
      var b := BlockLines(s.selectionSet, "", dump, aliases);
      ItemLines(s, "", dump, aliases) ==
        if a.Raised? then Raised(a.exc)
        else if |s.selectionSet.items| == 0 then Returned([AliasPrefix(s.alias, aliases) + s.name + a.value])
        else if b.Raised? then Raised(b.exc)
        else Returned([AliasPrefix(s.alias, aliases) + s.name + a.value + " {"] + b.value)
  {
    var a := RenderArguments(s.kwargs, dump);
    if a.Returned? {
      assert "" + AliasPrefix(s.alias, aliases) + s.name + a.value == AliasPrefix(s.alias, aliases) + s.name + a.value;
    }
  }

  lemma OpenBrace(head: string, lines: seq<string>)
    requires |lines| > 0
    ensures head + (" " + ("{\n" + Join("\n", lines))) == Join("\n", [head + " {"] + lines)
  {
    JoinCons("\n", head + " {", lines);
  }

  lemma {:induction false} FieldLayout(s: Selection, dump: Dumper, aliases: bool)
    requires s.Field? && WellFormedItem(s, dump)
    ensures RenderItem(s, dump, IndentAtNewlines, aliases) == JoinLines(ItemLines(s, "", dump, aliases))
    decreases s, 0, 0
  {
    var sub := s.selectionSet;
    RenderFieldUnfold(s, dump, IndentAtNewlines, aliases);
    FieldLinesUnfold(s, dump, aliases);
    var arguments := RenderArguments(s.kwargs, dump);
    if arguments.Returned? {
      var head := AliasPrefix(s.alias, aliases) + s.name + arguments.value;
      if |sub.items| > 0 {
        RenderSetLayout(sub, dump, aliases);
        var b := BlockLines(sub, "", dump, aliases);
        if b.Returned? {
          OpenBrace(head, b.value);
        }
      } else {
        assert head + "" == head;
      }
    }
  }

  lemma RenderFragmentUnfold(s: Selection, dump: Dumper, indent: Indenter, aliases: bool)
    requires s.InlineFragment?
    ensures var b := RenderSet(s.selectionSet, dump, indent, aliases);
      RenderItem(s, dump, indent, aliases) == if b.Raised? then Raised(b.exc) else Returned("... on " + s.on + " " + b.value)
  {
  }

  lemma FragmentLinesUnfold(s: Selection, dump: Dumper, aliases: bool)
    requires s.InlineFragment?
    ensures var b := BlockLines(s.selectionSet, "", dump, aliases);
      ItemLines(s, "", dump, aliases) ==
        if |s.selectionSet.items| == 0 then Returned(["... on " + s.on + " "])
        else if b.Raised? then Raised(b.exc)
        else Returned(["... on " + s.on + " {"] + b.value)
  {
    assert "" + "... on " + s.on + " " == "... on " + s.on + " ";
    assert "" + "... on " + s.on + " {" == "... on " + s.on + " {";
  }

  lemma FragmentOpenBrace(on: string, lines: seq<string>)
    requires |lines| > 0
    ensures "... on " + on + " " + ("{\n" + Join("\n", lines)) == Join("\n", ["... on " + on + " {"] + lines)
  {
    JoinCons("\n", "... on " + on + " {", lines);
    Assoc4("... on " + on + " ", "{", "\n", Join("\n", lines));
  }

  lemma {:induction false} FragmentLayout(s: Selection, dump: Dumper, aliases: bool)
    requires s.InlineFragment? && WellFormedItem(s, dump)
    ensures RenderItem(s, dump, IndentAtNewlines, aliases) == JoinLines(ItemLines(s, "", dump, aliases))
    decreases s, 0, 0
  {
    var sub := s.selectionSet;
    RenderFragmentUnfold(s, dump, IndentAtNewlines, aliases);
    FragmentLinesUnfold(s, dump, aliases);
    if |sub.items| > 0 {
      RenderSetLayout(sub, dump, aliases);
      var b := BlockLines(sub, "", dump, aliases);
      if b.Returned? {
        FragmentOpenBrace(s.on, b.value);
      }
    } else {
      assert "... on " + s.on + " " + "" == "... on " + s.on + " ";
    }
  }

  // ---------------------------------------------------------------------
  // Where `textwrap.indent` lays out the same text

  /** A serialised argument value whose only line boundaries are newlines. */
  predicate DumpsPlain(dump: Dumper, v: PyValue) {
    dump(v).Returned? ==> OnlyNewlineBreaks(dump(v).value)
  }

  /** Every argument value in the tree serialises without a line boundary
      other than a newline (`\v`, `\f`, `\x1c`-`\x1e`, `\x85`, U+2028,
      U+2029 are the others `str.splitlines` cuts at). */
  predicate PlainSet(ss: SelectionSet, dump: Dumper)
    decreases ss, 1
  {
    forall i | 0 <= i < |ss.items| :: PlainItem(ss.items[i], dump)
  }

  predicate PlainItem(s: Selection, dump: Dumper)
    decreases s, 0
  {
    match s
    case Field(_, kwargs, sub, _) => (forall k | 0 <= k < |kwargs| :: DumpsPlain(dump, kwargs[k].1)) && PlainSet(sub, dump)
    case InlineFragment(_, sub) => PlainSet(sub, dump)
  }

  lemma NamePlain(n: string)
    requires IsName(n)
    ensures OnlyNewlineBreaks(n)
  {
    forall i | 0 <= i < |n|
      ensures !IsLineBoundary(n[i])
    {
    }
  }

  lemma {:induction false} ArgsPlain(kwargs: seq<(string, PyValue)>, dump: Dumper)
    requires forall k | 0 <= k < |kwargs| :: IsName(kwargs[k].0) && DumpsPlain(dump, kwargs[k].1)
    ensures RenderArgs(kwargs, dump).Returned? ==>
      forall i | 0 <= i < |RenderArgs(kwargs, dump).value| :: OnlyNewlineBreaks(RenderArgs(kwargs, dump).value[i])
  {
    if |kwargs| > 0 && RenderArgs(kwargs, dump).Returned? {
      ArgsPlain(kwargs[1..], dump);
      var v := dump(kwargs[0].1).value;
      NamePlain(kwargs[0].0);
      OnlyNewlineBreaksAppend(kwargs[0].0, ": ");
      OnlyNewlineBreaksAppend(kwargs[0].0 + ": ", v);
    }
  }

  lemma ArgumentsPlain(kwargs: seq<(string, PyValue)>, dump: Dumper)
    requires forall k | 0 <= k < |kwargs| :: IsName(kwargs[k].0) && DumpsPlain(dump, kwargs[k].1)
    ensures RenderArguments(kwargs, dump).Returned? ==> OnlyNewlineBreaks(RenderArguments(kwargs, dump).value)
  {
    if |kwargs| > 0 && RenderArguments(kwargs, dump).Returned? {
      ArgsPlain(kwargs, dump);
      var pieces := RenderArgs(kwargs, dump).value;
      OnlyNewlineBreaksJoin(", ", pieces);
      OnlyNewlineBreaksAppend("(", Join(", ", pieces));
      OnlyNewlineBreaksAppend("(" + Join(", ", pieces), ")");
    }
  }

  lemma FieldHeadPlain(pad: string, s: Selection, arguments: string, tail: string, dump: Dumper, aliases: bool)
    requires s.Field? && WellFormedItem(s, dump)
    requires OnlyNewlineBreaks(pad) && OnlyNewlineBreaks(arguments) && OnlyNewlineBreaks(tail)
    ensures OnlyNewlineBreaks(pad + AliasPrefix(s.alias, aliases) + s.name + arguments + tail)
  {
    var prefix := AliasPrefix(s.alias, aliases);
    NamePlain(s.name);
    if |prefix| > 0 {
      NamePlain(s.alias.value);
      OnlyNewlineBreaksAppend(s.alias.value, ": ");
    }
    OnlyNewlineBreaksAppend(pad, prefix);
    OnlyNewlineBreaksAppend(pad + prefix, s.name);
    OnlyNewlineBreaksAppend(pad + prefix + s.name, arguments);
    OnlyNewlineBreaksAppend(pad + prefix + s.name + arguments, tail);
  }

  /** Every line of the layout of a tree whose values serialise plainly
      is free of line boundaries other than newlines. */
  lemma {:induction false} ItemLinesPlain(s: Selection, pad: string, dump: Dumper, aliases: bool)
    requires WellFormedItem(s, dump) && PlainItem(s, dump) && OnlyNewlineBreaks(pad)
    ensures ItemLines(s, pad, dump, aliases).Returned? ==>
      forall i | 0 <= i < |ItemLines(s, pad, dump, aliases).value| :: OnlyNewlineBreaks(ItemLines(s, pad, dump, aliases).value[i])
    decreases s, 0, 0
  {
    var r := ItemLines(s, pad, dump, aliases);
    if r.Returned? {
      match s
      case Field(name, kwargs, sub, alias) =>
        ArgumentsPlain(kwargs, dump);
        var arguments := RenderArguments(kwargs, dump).value;
        if |sub.items| == 0 {
          FieldHeadPlain(pad, s, arguments, "", dump, aliases);
          assert pad + AliasPrefix(alias, aliases) + name + arguments + "" == pad + AliasPrefix(alias, aliases) + name + arguments;
        } else {
          FieldHeadPlain(pad, s, arguments, " {", dump, aliases);
          BlockLinesPlain(sub, pad, dump, aliases);
        }
      case InlineFragment(on, sub) =>
        NamePlain(on);
        var tail := if |sub.items| == 0 then " " else " {";
        OnlyNewlineBreaksAppend(pad, "... on ");
        OnlyNewlineBreaksAppend(pad + "... on ", on);
        OnlyNewlineBreaksAppend(pad + "... on " + on, tail);
        if |sub.items| > 0 {
          BlockLinesPlain(sub, pad, dump, aliases);
        }
    }
  }

  lemma {:induction false} BlockLinesPlain(ss: SelectionSet, pad: string, dump: Dumper, aliases: bool)
    requires WellFormedSet(ss, dump) && PlainSet(ss, dump) && OnlyNewlineBreaks(pad)
    ensures BlockLines(ss, pad, dump, aliases).Returned? ==>
      forall i | 0 <= i < |BlockLines(ss, pad, dump, aliases).value| :: OnlyNewlineBreaks(BlockLines(ss, pad, dump, aliases).value[i])
    decreases ss, 2, 0
  {
    OnlyNewlineBreaksAppend(pad, Indentation);
    ItemsLinesPlain(ss, 0, pad + Indentation, dump, aliases);
    OnlyNewlineBreaksAppend(pad, "}");
  }

  lemma {:induction false} ItemsLinesPlain(ss: SelectionSet, i: nat, pad: string, dump: Dumper, aliases: bool)
    requires i <= |ss.items|
    requires WellFormedSet(ss, dump) && PlainSet(ss, dump) && OnlyNewlineBreaks(pad)
    ensures ItemsLines(ss, i, pad, dump, aliases).Returned? ==>
      forall k | 0 <= k < |ItemsLines(ss, i, pad, dump, aliases).value| :: OnlyNewlineBreaks(ItemsLines(ss, i, pad, dump, aliases).value[k])
    decreases ss, 1, |ss.items| - i
  {
    if i < |ss.items| {
      ItemLinesPlain(ss.items[i], pad, dump, aliases);
      ItemsLinesPlain(ss, i + 1, pad, dump, aliases);
    }
  }

  /** Where no argument value holds a line boundary other than a newline,
      `textwrap.indent` renders a tree exactly as indentation at newlines
      does. */
  lemma {:induction false} SetIndentAgrees(ss: SelectionSet, dump: Dumper, aliases: bool)
    requires WellFormedSet(ss, dump) && PlainSet(ss, dump)
    ensures RenderSet(ss, dump, Indent, aliases) == RenderSet(ss, dump, IndentAtNewlines, aliases)
    decreases ss, 2, 0
  {
    if |ss.items| > 0 {
      ItemsIndentAgree(ss, 0, dump, aliases);
      RenderSetUnfold(ss, dump, Indent, aliases);
      RenderSetUnfold(ss, dump, IndentAtNewlines, aliases);
    }
  }

  lemma {:induction false} ItemsIndentAgree(ss: SelectionSet, i: nat, dump: Dumper, aliases: bool)
    requires i <= |ss.items|
    requires WellFormedSet(ss, dump) && PlainSet(ss, dump)
    ensures RenderItems(ss, i, dump, Indent, aliases) == RenderItems(ss, i, dump, IndentAtNewlines, aliases)
    decreases ss, 1, |ss.items| - i
  {
    if i < |ss.items| {
      var item := ss.items[i];
      ItemIndentAgrees(item, dump, aliases);
      ItemsIndentAgree(ss, i + 1, dump, aliases);
      var text := RenderItem(item, dump, IndentAtNewlines, aliases);
      if text.Returned? {
        ItemLayout(item, dump, aliases);
        var lines := ItemLines(item, "", dump, aliases).value;
        ItemLinesPlain(item, "", dump, aliases);
        OnlyNewlineBreaksJoin("\n", lines);
        IndentAgrees(text.value, Indentation);
      }
    }
  }

  lemma {:induction false} ItemIndentAgrees(s: Selection, dump: Dumper, aliases: bool)
    requires WellFormedItem(s, dump) && PlainItem(s, dump)
    ensures RenderItem(s, dump, Indent, aliases) == RenderItem(s, dump, IndentAtNewlines, aliases)
    decreases s, 0, 1
  {
    SetIndentAgrees(s.selectionSet, dump, aliases);
    if s.Field? {
      RenderFieldUnfold(s, dump, Indent, aliases);
      RenderFieldUnfold(s, dump, IndentAtNewlines, aliases);
    } else {
      RenderFragmentUnfold(s, dump, Indent, aliases);
      RenderFragmentUnfold(s, dump, IndentAtNewlines, aliases);
    }
  }

  /** Rendering with `textwrap.indent` has the same line-by-line layout as
      `RenderSetLayout` describes, once no argument value holds a line
      boundary other than a newline. */
  lemma IndentedLayout(ss: SelectionSet, dump: Dumper, aliases: bool)
    requires |ss.items| > 0
    requires WellFormedSet(ss, dump) && PlainSet(ss, dump)
    ensures RenderSet(ss, dump, Indent, aliases) == BlockText(BlockLines(ss, "", dump, aliases))
  {
    SetIndentAgrees(ss, dump, aliases);
    RenderSetLayout(ss, dump, aliases);
  }
}
