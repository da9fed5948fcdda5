# quiz, modelled in Dafny

A model of the core of *quiz*, a Python client library for GraphQL APIs,
together with proofs about the model. It covers:

- the query builder (quiz/build.py, and the older src/quiz/build.py and quiz/core.py revisions). It extends a
  selection set by attribute access (`_.foo`), subscription (`_.foo[_.bar]`)
  and calls (`_.foo(id=4)`, `_("alias").foo`), serialises argument values
  (`dump_inputvalue`, `escape`, the `__gql_dump__` methods of quiz/types.py)
  and renders selection sets and queries as GraphQL text;
- the type system of quiz/types.py. This covers the coercion of Python values
  into the classes generated from a schema (`coerce`, `validate_value`,
  `validate_args`, `InputObject.__init__`), the validation of a query against those
  classes (`validate_field`, `validate_selection_set`, and the raising
  validators of src/quiz/types.py and quiz/core.py), and the loading of a JSON
  response into instances (`load_field`, `load`);
- the `Result` type of quiz/types.py (`Ok`/`Err`, `sequence`, `fields`);
- the schema: introspection JSON to raw types (quiz/schema/raw.py,
  quiz/schema.py), type references and their resolution, the scalar checks,
  and the construction of the class maps of `build` (quiz/schema/to_types.py);
- the helpers of quiz/utils.py these rely on (`merge`, `init_last`, `compose`,
  `ValueObject.replace`).

Python exceptions become values of `Exceptions.Raising<T>`: `Returned(value)`
or `Raised(exc)`. Python values are one datatype, `Values.PyValue`. This includes the
instances of the wrapper classes of quiz/types.py, each of which carries its class as a
`Catalogs.TypeExpr`. Where the source is wrong, the model has both
the code as written and the corrected version, selected by `Revision = AsWritten | Corrected`
or by a separate member; see "## Findings".

Each module follows one source file: `Results` and `Exceptions` (results.dfy),
`Dicts`/`Utils` (utils.dfy), `Text`, `Escape`, `Literals` (a reader for GraphQL
input-value literals: the partner of the serialiser), `Catalogs`, `Values`,
`Selections` (selection sets and their rendering, shared by the three builder
revisions), `QuizBuild` (quiz/build.py), `SrcBuild` (src/quiz/build.py),
`Core` (quiz/core.py), `Floats` (floats.dfy: the text and range Python's `float()` accepts), `Membership`, `Ordering`, `RaisingValidation`,
`Coercion`, `CoercionFacts`, `TypesValidation`, `Loading`, `RawCast`,
`Introspection`, `Schema`, `TypeRefs` and `ToTypes`.

## Model

| member | source | states |
|---|---|---|
| Results.CombinatorLaws | quiz/types.py:153-217 | `map` and `flatmap` pass an `Err` through unchanged and `map_err` passes an `Ok` through; `flatmap` of an `Ok` is the function applied to its value; `map_or_else` maps whichever side is present; mapping never changes which side a result is on |
| Results.Sequence | quiz/types.py:114-133 | `Result.sequence` is `Ok` exactly when every result is `Ok`, and then holds their values in order; otherwise it lists every failure with its position and error, in order |
| Results.SequencePrefix | quiz/types.py:114-133 | the sequence of one more result extends that of the prefix: an `Ok` adds its value to an `Ok` and leaves an `Err` alone; an `Err` starts or extends the failure list |
| Results.SequenceLoop | quiz/types.py:114-133 | the two loops of `sequence` (collect the values until the first failure, then collect every failure) compute `Sequence` |
| Results.SequenceOfList | quiz/types.py:114-133 | `sequence` given a list rather than a one-shot iterator agrees with `Sequence` whenever every result is `Ok` |
| Results.SequenceOfListMislabels | quiz/types.py:128-129 | given the list `[Err(e), Ok(v)]`, the second loop starts again from the beginning and reports `e` at positions 0 and 1, whereas `Sequence` reports it once at position 0 |
| Results.FirstErr | quiz/types.py:120-126 | the position where the first loop of `sequence` stops: every earlier result is `Ok` and the result there is an `Err` |
| Results.Fields | quiz/types.py:135-148 | `Result.fields` is `Ok` exactly when every entry is `Ok`, with the same keys in the same order and the values unwrapped; otherwise it is `Err` with the failing entries, of which there is at least one |
| Results.NoFailuresMeansAllOk | quiz/types.py:135-148 | there are no failing entries exactly when every entry is `Ok` |
| Dicts.Get | quiz/utils.py:45-52 | a lookup misses exactly when the key is absent, and otherwise gives the value of an entry for that key |
| Dicts.PutGet | quiz/utils.py:45-52 | after `d[k] = v`, looking up `k` gives `v` and any other key gives what it gave before |
| Dicts.FromPairsSpec | quiz/schema/to_types.py:14-15 | `dict(pairs)` holds each key once, in order of first occurrence, and each key maps to its value in the last pair for it |
| Dicts.FromPairsEntries | quiz/schema/to_types.py:14-15 | every entry of `dict(pairs)` is one of the pairs |
| Utils.InitLast | quiz/utils.py:59-71 | `init_last` raises `Empty` exactly on an empty list; otherwise the init and the last item put back together give the list |
| Utils.MergeSpec | quiz/utils.py:45-52 | `merge` holds each key once, exactly the keys found in some mapping, and each key maps to its value in the last mapping that has it |
| Utils.LastHavingSome | quiz/utils.py:45-52 | some mapping supplies the merged value of a key exactly when some mapping has that key |
| Utils.ComposeCall | quiz/utils.py:181-203 | calling `compose(*funcs)` applies the last function and then each earlier one from right to left, and is the identity when there are none. This is the reference definition `Composed` |
| Utils.ComposedSplit | quiz/utils.py:181-203 | composing a concatenation of two lists of functions composes the compositions of the two parts |
| Utils.Replace | quiz/utils.py:134-152 | `ValueObject.replace` raises `ValueError` exactly when some update names a field the object does not have; otherwise it keeps the class and the field names in order, sets each updated field to its update and keeps every other field (Python's keyword arguments cannot name a field twice) |
| Utils.ReplaceNothing | quiz/utils.py:134-152 | `replace()` with no updates gives back the same object |
| Utils.ReplaceOne | quiz/utils.py:134-152 | replacing one field of an object with distinct field names sets that field and keeps every other field; an unknown name raises `ValueError` |
| Utils.ReplaceRestores | quiz/utils.py:134-157 | replacing a field and then putting its old value back restores an object equal to the original |
| Escape.EscapeChar | quiz/build.py:359-367 | each of the seven characters of `_ESCAPE_PATTERNS` becomes a backslash and a character that GraphQL decodes back to it; every other character is kept |
| Escape.EscapeFixedPoints | quiz/build.py:375-377 | `escape` leaves a string unchanged exactly when it holds none of the seven characters |
| Escape.EscapeLength | quiz/build.py:375-377 | `escape` never shortens a string |
| Escape.EscapeRoundTrip | quiz/build.py:375-377 | decoding the GraphQL string body `escape(s)` gives back `s` for every `s` with no bare control character outside the table |
| Escape.EscapeLeavesControlCharacters | quiz/build.py:375-377 | U+0001 passes through `escape` raw, and the result is not a valid GraphQL string body |
| Escape.EscapeFullRoundTrip | quiz/build.py:375-377 | decoding the corrected escape of any string gives back that string |
| Escape.EscapeFullAgrees | quiz/build.py:375-377 | on the strings `escape` already handles correctly, the corrected escape is `escape` |
| Text.IntToStringRoundTrip | quiz/build.py:394 | `str(i)` for an integer writes a GraphQL IntValue that parses back to `i` |
| Text.NatDigitsValue | quiz/build.py:394 | the decimal digits written for a natural number denote that number |
| Text.SplitLinesKeepEnds | quiz/build.py:260-267 | `splitlines(keepends=True)`: non-empty lines that concatenate back to the text |
| Text.PrefixLines | quiz/build.py:260-267 | `textwrap.indent` prefixes every line that is not whitespace only, and keeps the other lines |
| Text.IndentAgrees | quiz/build.py:260-267 | on text whose only line breaks are `\n`, `textwrap.indent` is indentation at newlines |
| Text.IndentTwoLines | quiz/build.py:260-267 | `textwrap.indent` also breaks at line boundaries other than `\n` (such as U+2028) and inserts the prefix after them |
| Text.IndentJoin | quiz/build.py:260-267 | indenting lines joined by newlines, none of them blank, prefixes each line |
| QuizBuild.WithSub | quiz/build.py:142 | `replace(target, selection_set=…)` changes the sub-selection only: the name, arguments, alias and fragment type are kept |
| QuizBuild.GetAttr | quiz/build.py:62-93 | `ss.name` keeps the selections of `ss` and adds a bare field `name` at the end (quiz/core.py:94-95 does the same) |
| QuizBuild.GetItem | quiz/build.py:95-143 | `ss[arg]` raises `Empty` exactly when `ss` is empty; otherwise it raises `AssertionError` exactly when `arg` is not a non-empty selection set; otherwise it gives the last selection `arg` as its sub-selection and keeps the others |
| QuizBuild.AddKwargs | quiz/build.py:230-234 | `__add_kwargs` raises `Empty` on an empty set and `TypeError` when the last selection is an inline fragment; otherwise it sets the arguments of the last field and keeps everything else |
| QuizBuild.Call | quiz/build.py:151-228 | one positional argument gives an alias for the next field, and more raise `ValueError`; with none, the call is `__add_kwargs` with the keyword arguments |
| QuizBuild.AliasNext | quiz/build.py:279-287 | `_AliasForNextField.__getattr__` appends a bare field with that alias |
| QuizBuild.DumpItems | quiz/build.py:400-402 | a list serialises exactly when every item does, item by item in order; otherwise the first item that fails decides the exception |
| QuizBuild.GqlDumpItems | quiz/types.py:505-508 | a `List` wrapper's items serialise exactly when each does, in order; otherwise the first item that fails decides the exception |
| QuizBuild.DumpFields | quiz/types.py:381-387 | the `name: value` pieces of an input object are produced exactly when every field value serialises, one piece per field in order |
| QuizBuild.Gql | quiz/build.py:260-267 | corrected rendering (indentation at the renderer's own newlines): an empty selection set renders as the empty string; a non-empty one whose arguments all serialise renders as `{`, a newline, its block of lines (one per field head, each nesting level two spaces deeper, each sub-selection closed by a brace) and a closing brace |
| QuizBuild.GqlAsWritten | quiz/build.py:260-267 | `SelectionSet.__gql__` as written (with `textwrap.indent` and `dump_inputvalue` as written): an empty selection set renders as the empty string; a non-empty one whose arguments all serialise to text without line separators other than `\n` renders as the same block of lines |
| QuizBuild.QueryGql | quiz/build.py:352-353 | `Query.__gql__` as written is `query ` alone for an empty selection set, and otherwise `query ` followed by the selection set's block of lines, under the conditions of `QuizBuild.GqlAsWritten` |
| QuizBuild.QueryGqlCorrected | quiz/build.py:352-353 | with the corrected rendering, a query is `query ` followed by the selection set's block of lines whenever its arguments serialise |
| Selections.IndentedLayout | quiz/build.py:260-267 | with `textwrap.indent`, a non-empty selection set whose serialised arguments break lines only at `\n` renders as its block of lines |
| Selections.SetIndentAgrees | quiz/build.py:260-267 | on such a selection set, rendering with `textwrap.indent` and with indentation at newlines give the same result, success or failure |
| QuizBuild.GetAttrRendersLine | quiz/build.py:62-93 | `ss.name` renders as the rendering of `ss` with one more line, the name indented one level, before the closing brace; an empty set becomes a block of that one line |
| QuizBuild.DumpReadsBack | quiz/build.py:380-406 | `dump_inputvalue` is modelled by `QuizBuild.DumpWith`, instantiated as `QuizBuild.DumpInputValue` (full escaping) and `QuizBuild.DumpInputValueAsWritten` (`escape` as written), and this lemma is their contract: whatever `QuizBuild.DumpInputValue` serialises reads back, by the GraphQL literal reader, as the literal the value stands for, whatever follows it after a delimiter |
| QuizBuild.LeafReadsBack | quiz/build.py:393-396 | `None`, booleans, integers, strings and enum members serialise to single tokens that read back as their literals |
| QuizBuild.ListReadsBack | quiz/build.py:400-402 | a list serialises to a bracketed literal that reads back as the list of its items' literals |
| QuizBuild.ObjectReadsBack | quiz/types.py:381-660 | the `__gql_dump__` of every class of quiz/types.py writes a literal that reads back as the value the instance stands for |
| QuizBuild.ObjectLeafReadsBack | quiz/types.py:620-660 | `Int`, `Boolean` and `String` wrappers and enum members dump to single tokens that read back |
| QuizBuild.ObjectListReadsBack | quiz/types.py:505-508 | a `List` wrapper dumps to a bracketed literal that reads back as the list of its items |
| QuizBuild.InputObjectReadsBack | quiz/types.py:381-387 | an input object dumps to a braced object literal that reads back field by field |
| QuizBuild.FieldsReadBack | quiz/types.py:381-387 | the `name: value` pieces of an input object, joined and closed by a brace, read back as the list of field literals |
| QuizBuild.OneArgField | quiz/build.py:313-330 | a field with one argument and no sub-selection renders as `name(k: v)` |
| QuizBuild.SingleSet | quiz/build.py:260-267 | a set of one selection renders as a block holding that selection, indented |
| QuizBuild.PlainStringDumps | quiz/build.py:393 | a string with no character that either escaping rewrites serialises as itself in quotes under both escapings |
| QuizBuild.SeparatorIndented | quiz/build.py:260-267 | a string argument holding U+2028 gains indentation inside the string literal when rendered as written, and is kept intact by the corrected rendering |
| QuizBuild.ControlCharacterDump | quiz/build.py:375-393 | the string U+0001 serialises raw as written, which does not read back as a GraphQL literal; the corrected serialisation reads back as that string |
| Selections.RenderArgs | quiz/build.py:313-330 | the `k: v` pieces of a field's arguments are produced exactly when every value serialises, one per argument in order; otherwise some argument's failure is the exception |
| Selections.RenderSetLayout | quiz/build.py:260-330 | with indentation at newlines, a non-empty selection set with well-formed arguments renders as its block of lines: one line per field head, each nesting level indented two more spaces, closed by a brace |
| Selections.BlockLinesShift | quiz/build.py:260-267 | rendering a block under a longer indentation prefixes every line of the shorter one |
| Selections.ItemLinesGood | quiz/build.py:313-339 | every rendered line of a well-formed selection is free of newlines and starts, after its indentation, with a non-space character |
| Selections.ArgumentsOneLine | quiz/build.py:314-322 | arguments whose names are GraphQL names and whose values serialise on one line render on one line |
| Literals.ReadsString | quiz/build.py:393 | a quoted, fully escaped string reads back as that string, whatever follows |
| Literals.ReadsInt | quiz/build.py:394 | `str(i)` followed by a delimiter reads back as the integer literal `i` |
| Literals.ReadsName | quiz/build.py:395-406 | a GraphQL name (`null`, `true`, `false`, an enum value) followed by a delimiter reads back as the literal it denotes |
| Literals.ParseItemsCons | quiz/build.py:400-402 | a serialised item followed by more items reads back as that item followed by the rest |
| Literals.ParseFieldsCons | quiz/types.py:381-387 | `name: value` followed by more fields reads back as that field followed by the rest |
| SrcBuild.AddKwargs | src/quiz/build.py:230-234 | `__add_kwargs` raises `Empty` on an empty set and `ValueError` (from `ValueObject.replace`) when the last selection is an inline fragment; otherwise it sets the arguments of the last field and keeps the rest |
| SrcBuild.Call | src/quiz/build.py:151-228 | one positional argument gives an alias for the next field and more raise `ValueError`; with none the call is `__add_kwargs` |
| SrcBuild.CallsAgree | src/quiz/build.py:230-234 | the older builder calls exactly as the current one when the last selection is a field or the set is empty, and raises `ValueError` where the current one raises `TypeError` |
| SrcBuild.ArgumentAsGql | src/quiz/build.py:396-416 | `argument_as_gql` raises `TypeError` for lists, dicts and objects, quotes and escapes strings, and defers to a scalar's own `__gql_dump__` (raising `NotImplementedError` when it has none) |
| SrcBuild.AgreesExceptLists | src/quiz/build.py:396-416 | `argument_as_gql` serialises every value other than a list as `dump_inputvalue` of quiz/build.py does; it raises `TypeError` on a list that `dump_inputvalue` serialises |
| SrcBuild.Gql | src/quiz/build.py:260-267 | `SelectionSet.__gql__` of src/quiz/build.py: an empty selection set renders as the empty string; a non-empty one whose arguments all serialise (by `argument_as_gql`) to text that breaks lines only at `\n` renders as `{`, its block of lines and `}` |
| SrcBuild.QueryGql | src/quiz/build.py:356-357 | `Query.__gql__` is `query ` alone for an empty selection set, and otherwise `query ` followed by the selection set's block of lines, under the conditions of `SrcBuild.Gql` |
| SrcBuild.ListArgumentRaises | src/quiz/build.py:317-333 | a field with a list argument cannot be rendered: `TypeError` |
| Core.GetItem | quiz/core.py:97-108 | subscription raises `Error('cannot select fields from empty field list')` exactly on an empty set, `AssertionError` exactly when the argument is not a non-empty selection set, and otherwise nests the argument under the last selection |
| Core.Call | quiz/core.py:114-121 | a call raises `Error('cannot call empty field list')` exactly on an empty set and `ValueError` exactly when the last selection is an inline fragment; otherwise it sets the arguments of the last field |
| Core.BuildersAgree | quiz/core.py:97-121 | on a non-empty set, subscription behaves as in quiz/build.py, and so does a call when the last selection is a field |
| Core.ArgumentAsGql | quiz/core.py:495-506 | exactly strings, integers, `None`, booleans, floats and the members of enum classes derived from quiz/core.py's `Enum` (the `enums` parameter) serialise, an enum member by its value; everything else, members of other `enum.Enum` classes included, raises `TypeError`, the fallback at quiz/core.py:41-43; strings are quoted and escaped, `None` is `null`, booleans are `true`/`false` |
| Core.ArgumentAgreesWithSrc | quiz/core.py:41-43 | whatever quiz/core.py serialises, src/quiz/build.py serialises the same way; a scalar with its own serialisation is a `TypeError` here and serialises there |
| Core.IntArgumentReadsBack | quiz/core.py:496 | an integer argument serialises to text that parses back to that integer |
| Core.BuildingKeepsAliasFree | quiz/core.py:94-121 | attribute access, calls and subscription never introduce an alias |
| Core.RendersLikeSrc | quiz/core.py:129-186 | a selection set without aliases that quiz/core.py renders is rendered identically by src/quiz/build.py |
| Core.Gql | quiz/core.py:129-134 | `SelectionSet.__gql__` of quiz/core.py: an empty selection set renders as the empty string; a non-empty one whose arguments serialise to text that breaks lines only at `\n` renders as `{`, its block of lines (aliases never written) and `}` |
| Core.OperationGql | quiz/core.py:275-277 | an operation is its keyword and a space alone for an empty selection set, and otherwise its keyword, a space and the selection set's block of lines, under the conditions of `Core.Gql` |
| Core.MakeQuery | quiz/core.py:447-462 | `query` builds a query operation exactly when the selection set validates against the class, and otherwise raises what `validate` raises |
| Core.QueryRenders | quiz/core.py:447-462 | a valid selection set gives a query that renders as `query ` followed by the selection set |
| Membership.NoneFitsOnlyNullable | src/quiz/types.py:136-147 | `None` is an instance of a type exactly when the type is `Nullable[...]` |
| Membership.EmptyListFits | src/quiz/types.py:120-130 | the empty list is an instance of every `List[t]` |
| Membership.ListHalves | src/quiz/types.py:120-130 | a concatenation of lists is an instance of `List[t]` exactly when both parts are |
| Membership.NullableWidens | src/quiz/types.py:136-147 | `Nullable[t]` admits every instance of `t`, and `Nullable[Nullable[t]]` admits the same values as `Nullable[t]` |
| Membership.GenericScalarAdmits | src/quiz/types.py:182-184 | the generic scalar admits exactly the primitives `int`, `float`, `bool` and `str` |
| Ordering.Sort | quiz/types.py:716-726 | `sorted()` of the messages: a sorted permutation of them |
| Ordering.SortedUnique | quiz/types.py:716-726 | two sorted permutations of the same messages are equal, so the sorted output does not depend on the order of the input |
| Ordering.SortPermutationInvariant | quiz/types.py:716-726 | sorting permuted messages gives the same result |
| RaisingValidation.FirstUnknown | src/quiz/types.py:202-204 | the name `NoSuchArgument` reports: there is none exactly when every given argument is defined by the schema, and otherwise it is a given name the schema lacks |
| RaisingValidation.CheckArgs | src/quiz/types.py:206-216 | the loop over the schema's arguments succeeds exactly when each is satisfied (absent and `Nullable`, or an instance of its type); otherwise it reports the first unsatisfied one in schema order, as `MissingArgument` when it is absent and `InvalidArgumentType` with the value when it is present |
| RaisingValidation.ValidateArgs | src/quiz/types.py:199-218 | `_validate_args` returns the arguments unchanged exactly when they are valid; an unknown name is reported before anything else, then the first unsatisfied argument in schema order |
| RaisingValidation.ValidateField | src/quiz/types.py:221-237 | `_validate_field` raises `NoSuchField` for a field the class lacks, passes on the argument error, raises `SelectionsNotSupported` for a sub-selection on a type without fields, and succeeds on a valid field without sub-selection |
| RaisingValidation.Validate | src/quiz/types.py:240-265 | `validate` gives back the selection set itself when it succeeds, and an empty selection set always succeeds |
| RaisingValidation.ValidateDecides | src/quiz/types.py:240-265 | `validate` succeeds exactly on the valid selection sets: every selection a field of the class, with valid arguments and, when it has a sub-selection, on a type with fields against which that sub-selection is valid |
| RaisingValidation.ValidateFieldDecides | quiz/core.py:310-326 | `_validate_field` of a field looked up on the class succeeds exactly when that selection is valid |
| RaisingValidation.FirstFailureReported | quiz/core.py:329-354 | a validation error that escapes `validate` is a `SelectionError` naming the class and the first invalid field; every selection before that field is valid |
| Catalogs.UnwrapRewrap | quiz/types.py:672-675 | `_unwrap_list_or_nullable` strips exactly the `Nullable`/`List` wrappers: putting them back around the class it gives the type back |
| Catalogs.FindBy | src/quiz/types.py:262 | the lookup of a field of a class, or of an argument of a field, by name: it finds an entry of that name, and finds none exactly when no entry has that name |
| Catalogs.LookupField | src/quiz/types.py:262 | `getattr(cls, name)` on the fields of a class: a field it finds has the name asked for and belongs to an object or interface class; the other class attributes `getattr` can find are under "## Left out" |
| Values.PrimitiveIsSomePrimInstance | src/quiz/types.py:182-184 | a value is a primitive exactly when it is an instance of one of `int`, `float`, `bool`, `str` |
| Coercion.CoerceInt | quiz/types.py:613-618 | `Int.coerce` rejects a non-`int` (a `bool` is an `int`) with "Invalid type, must be int."; as written it accepts exactly the integers strictly between -2^31 and 2^31 - 1, corrected exactly the signed 32-bit integers; an accepted value is wrapped as it is and a rejected one gets "Integer beyond 32-bit limit." |
| Coercion.IntBoundsRejected | quiz/types.py:616 | as written `Int.coerce` rejects both -2^31 and 2^31 - 1, which are 32-bit integers; corrected, it accepts both |
| Coercion.CoerceFloat | quiz/types.py:592-599 | `Float.coerce` accepts exactly the `int`s and the finite `float`s, wrapping them as `Float` |
| Coercion.CoerceBoolean | quiz/types.py:632-636 | `Boolean.coerce` accepts exactly the `bool`s and wraps them unchanged |
| Coercion.CoerceString | quiz/types.py:650-654 | `String.coerce`/`ID.coerce` accept exactly the `str`s and wrap them in the class |
| Coercion.MemberWithValue | quiz/types.py:403 | `cls(value)` of an enum finds a member with that value, and fails exactly when no member has it |
| Coercion.CoerceEnum | quiz/types.py:400-407 | `Enum.coerce` accepts exactly a string that is the value of some member, and gives that member |
| Coercion.CoerceAnyScalar | quiz/types.py:563-572 | `AnyScalar.coerce` wraps a scalar instance or `None` unchanged, wraps a `str` as `String` and a `bool` as `Boolean`, and rejects an `ID`, a list or a dict with "Not a valid scalar." |
| Coercion.ValidateValue | quiz/types.py:690-698 | `validate_value` gives back an instance of the type unchanged, and whatever it accepts is an instance of the type |
| Coercion.Coerce | quiz/types.py:529-534 | every value `coerce` accepts is an instance of the type; `Nullable[t]` accepts `None` as `Nullable(None)`; `List[t]` rejects anything but a list with "Invalid type <class>." |
| Coercion.CoerceList | quiz/types.py:488-503 | `List.coerce` accepts only into an instance of that very `List[t]` class |
| Coercion.CoerceNamed | quiz/types.py:339-350 | whatever the `coerce` of a class accepts is an instance of that class; an input object given a dict is built from the values `validate_args` accepts, `NotImplementedError` is raised when it rejects them, and its exception passes through |
| Coercion.InputObjectInit | quiz/types.py:352-374 | `InputObject.__init__` succeeds exactly when every given name is defined and every required (non-`Nullable`) name is given, and then the instance holds the given values; otherwise it raises `NoSuchArgument` naming exactly the undefined given names, or, when there are none, `MissingArgument` naming exactly the required names not given |
| Coercion.UnknownMessages | quiz/types.py:716-726 | there is no "No argument named" message exactly when every given name is defined |
| Coercion.MissingMessages | quiz/types.py:716-726 | there is no "No value for required argument" message exactly when every required argument is given |
| CoercionFacts.NullableDefers | quiz/types.py:529-534 | `Nullable[t]` coerces a value other than `None` as `validate_value(t, ·)` does, wrapping an accepted value and keeping the message or the exception |
| CoercionFacts.ListCoerceReturns | quiz/types.py:488-503 | `List.coerce` of a list raises exactly when validating one of its items raises |
| CoercionFacts.ListCoerceOk | quiz/types.py:488-503 | a list is accepted exactly when every item is accepted |
| CoercionFacts.ListCoerceItems | quiz/types.py:488-503 | an accepted list holds, in order, the validated items |
| CoercionFacts.ValidateArgsAccepts | quiz/types.py:707-738 | `validate_args` returns `Ok` whenever every given name is defined, every required argument is given and every given value validates |
| CoercionFacts.ValidateArgsRejects | quiz/types.py:707-738 | when one of those three conditions fails, `validate_args` returns `Err` (or raises) |
| CoercionFacts.ValidateArgsValues | quiz/types.py:727-738 | on success `validate_args` holds, under the given names and in order, the validated values |
| CoercionFacts.ValidateArgsRaises | quiz/types.py:727-731 | `validate_args` raises only what validating one of the defined given values raises |
| CoercionFacts.ValidatedArgsConstruct | quiz/types.py:343-347 | the values `validate_args` accepts construct the input object without raising, so `InputObject.coerce` returns the instance |
| TypesValidation.Combine | quiz/types.py:778-790 | the field validates exactly when both its arguments and its sub-selection do, and then carries the validated sub-selection; corrected, a failure reports the arguments' message and the sub-selection's, each once, in that order |
| TypesValidation.ValidateField | quiz/types.py:769-797 | a field that `validate_field` accepts keeps its name and alias, and has no sub-selection when its type has no fields |
| TypesValidation.ValidateFieldParts | quiz/types.py:773-797 | a field that `validate_field` accepts carries exactly the arguments `validate_args` returned and, when its type has fields, exactly the sub-selection `validate_selection_set` returned |
| TypesValidation.GetField | quiz/types.py:800-804 | `_get_field` succeeds exactly when `Catalogs.LookupField` finds a field of that name, and gives that field |
| TypesValidation.ValidateItem | quiz/types.py:813-817 | a selection validated against the class returns only when it is a field, and an accepted one keeps its name and alias |
| TypesValidation.ValidateSelectionSet | quiz/types.py:807-825 | an empty selection set is rejected with "Empty selection set."; an accepted one has the same fields in the same order, with the same names and aliases |
| TypesValidation.SelectionSetDecides | quiz/types.py:807-825 | when `validate_selection_set` returns, it accepts exactly the valid selection sets: non-empty, every item a field of the class with arguments `validate_args` accepts and a valid sub-selection where the type has fields |
| TypesValidation.ArgsMessageRepeated | quiz/types.py:782-789 | as written, a field with invalid arguments under a valid sub-selection reports "Invalid arguments:" twice |
| TypesValidation.CorrectedMessage | quiz/types.py:782-789 | corrected, a rejected field reports the arguments' message and the sub-selection's message, each once, in that order |
| Loading.ResponseKeys | src/quiz/types.py:319-323 | the key of each field in the response is its alias, or its name when it has none |
| Loading.FloatOf | quiz/types.py:604-605 | `float(data)` gives a float exactly for a float, a boolean, an integer of magnitude below `2^1024 - 2^970` and a string whose text is a float literal (`Floats.FloatLiteral`); a larger integer raises `OverflowError`, other text `ValueError`, any other value `TypeError`; a float is itself and an integer up to `2^53` its digits with `.0` |
| Loading.FloatOfIntText | quiz/types.py:604-605 | the decimal text of every integer loads as a float, while the integer itself loads exactly when it is within the double range |
| Floats.Strip | quiz/types.py:605 | the text `float()` reads: no leading or trailing whitespace, and unchanged when there was none |
| Floats.IntTextIsFloatLiteral | quiz/types.py:605 | `float()` accepts the decimal text of every integer, however large |
| Floats.FractionsAccepted | quiz/types.py:605 | `float()` accepts `1.5` and `.5` |
| Floats.ExponentAccepted | quiz/types.py:605 | `float()` accepts a signed number with an exponent between whitespace |
| Floats.NonFiniteAccepted | quiz/types.py:605 | `float()` accepts `Infinity` and `nan` in any case |
| Floats.WordsRefused | quiz/types.py:605 | `float()` refuses `x` and the empty string |
| Floats.DoubleUnderscoreRefused | quiz/types.py:605 | `float()` refuses a doubled underscore between digits |
| Loading.LoadScalar | src/quiz/types.py:285-292 | a value of a Python class loads as itself when it is an instance of that class, and otherwise fails the assertion; a user scalar's `__gql_load__` decides the rest |
| Loading.LoadEnum | src/quiz/types.py:293-295 | an enum loads exactly from a truthy string that is the value of one of its members, and gives that member |
| Loading.LoadField | src/quiz/types.py:273-297 | `load_field` gives `None` for `None` under `Nullable`, loads any other value as the inner type, and fails the assertion on a list type whose value is not a list |
| Loading.Load | src/quiz/types.py:300-331 | `load` gives an instance of the class it loads against |
| Loading.LoadSelection | src/quiz/types.py:317-327 | one entry of `load`: a field the class does not define raises `AttributeError`, a response key missing from the response raises `KeyError` |
| Loading.LoadEach | src/quiz/types.py:317-327 | the dictionary comprehension's pairs are produced exactly when every selection is a field whose value loads; there is one pair per selection, in order, keyed by its response key and holding its loaded value |
| Loading.LoadReturns | src/quiz/types.py:300-331 | `load` returns exactly when every selection is a field that loads |
| Loading.LoadValues | src/quiz/types.py:317-327 | under the response key of a field that no later field shares, the loaded instance holds that field's loaded value |
| Loading.LoadValue | src/quiz/types.py:317-327 | the same, for one field |
| Loading.ListLoadsElementwise | src/quiz/types.py:282-284 | a JSON list loads item by item: the result has one loaded value per item, in order, and loading fails exactly when some item fails |
| Loading.LoadPairs | src/quiz/types.py:317-327 | the fields of the loaded instance are the dictionary of the loaded pairs, keyed by the selections' response keys |
| Loading.LoadKeyedByResponseKey | src/quiz/types.py:317-327 | the loaded instance has each response key once, in the order of first selection |
| Loading.LoadOneEntryPerField | src/quiz/types.py:317-327 | with no repeated response key, the instance has one entry per selected field |
| Loading.SrcLoadFits | src/quiz/types.py:273-297 | what `load_field` of src/quiz/types.py returns is an instance of the field's type, as the metaclasses define membership, provided each user scalar loads an instance of itself |
| Loading.WrappersUnloadable | quiz/types.py:843-854 | as written, a field of class `Int`, `Float`, `Boolean`, `String` or `ID` raises `NotImplementedError`, and one of an `AnyScalar` class fails its assertion |
| Loading.WrappersLoadCorrected | quiz/types.py:843-854 | with the wrappers' own `__gql_load__` used, `Int`, `Boolean`, `String`, `ID` and `AnyScalar` fields load the JSON value as it is, and a `Float` field loads `float(data)` (`Loading.FloatOf`), which is the value itself when it is already a float |
| Introspection.ParseKind | quiz/schema/raw.py:90-98 | `Kind(value)` gives the kind whose name the string is, and raises `ValueError` otherwise |
| Introspection.ParseKindName | quiz/schema/raw.py:90-98 | every kind is read back from its name |
| Introspection.Item | quiz/schema/raw.py:149 | `conf[key]` gives the entry's value exactly when the dict has the key; a dict without it raises `KeyError`, anything that is not a dict `TypeError` |
| Introspection.MakeTypeRef | quiz/schema/raw.py:147-152 | `make_typeref` keeps `name`, reads `kind`, and reads a truthy `ofType` as the nested reference; a missing `name` or `kind` raises |
| Introspection.MakeTypeRefInverse | quiz/schema/raw.py:147-152 | every type reference, written as introspection JSON, is read back as itself |
| Introspection.MakeTypeRefNested | quiz/schema/raw.py:151 | a reference with a truthy `ofType` holds the reading of that entry |
| Introspection.Iterate | quiz/schema/raw.py:161 | iterating a list yields its items; only lists, dicts and strings are iterable, anything else raises `TypeError` |
| Introspection.MapEach | quiz/schema/raw.py:161 | `list(map(f, items))` succeeds exactly when `f` succeeds on every item, and holds the results in order; otherwise some item's exception is raised |
| Introspection.SlotOf | quiz/schema/raw.py:179-189 | `conf[x] and list(map(f, conf[x]))` keeps null as null and translates a list item by item, succeeding exactly when every item translates |
| Introspection.ListOf | quiz/schema/raw.py:159 | `list(map(make_inputvalue, conf["args"]))` raises `TypeError` on null and otherwise translates each item in order |
| Introspection.MakeInputValue | quiz/schema/raw.py:138-144 | `make_inputvalue` keeps `name`, `description` and `defaultValue` and reads `type` as a reference |
| Introspection.MakeField | quiz/schema/raw.py:155-163 | `make_field` keeps `name`, `description`, `isDeprecated` and `deprecationReason`, reads `type` as a reference and `args` as input values |
| Introspection.MakeEnumValue | quiz/schema/raw.py:166-172 | `make_enumval` keeps the four entries it reads |
| Introspection.ReadSlots | quiz/schema/raw.py:179-189 | the five optional lists of a type are each read with its own translation |
| Introspection.DeserializeType | quiz/schema/raw.py:175-190 | `_deserialize_type` raises `TypeError` on anything but a dict, and otherwise keeps `name` and `description`, reads `kind` and the five lists |
| Introspection.DeserializeNeedsKeys | quiz/schema/raw.py:175-190 | a type lacking any of the eight keys it reads cannot be deserialised |
| RawCast.CastType | quiz/schema/raw.py:227-272 | `_cast_type` succeeds exactly on types whose absent parts are absent as its assertions require, keeping kind, name and description; it raises `AssertionError` otherwise, and `AttributeError` for `NON_NULL` and `LIST` (`type.kind` in the final branch) |
| RawCast.CastUncast | quiz/schema/raw.py:227-272 | every cast type, written back as a raw type, is cast to itself |
| RawCast.UncastCast | quiz/schema/raw.py:227-272 | a raw type that casts is, but for the parts the cast drops, the raw type the cast writes back |
| RawCast.Load | quiz/schema/raw.py:275-277 | `load` yields one cast type per entry of `raw_schema['types']` in order, and succeeds exactly when every entry casts |
| Schema.KindCast | quiz/schema.py:531-552 | `KIND_CAST` has no entry for `NON_NULL` or `LIST` (`KeyError`); as written the `OBJECT` entry passes an `input_fields` keyword `Object` does not accept (`TypeError`); corrected, every other kind casts, keeping kind, name and description |
| Schema.KindCastKeepsSlots | quiz/schema.py:531-552 | each cast keeps the one slot of the raw type its kind owns: interfaces and fields, fields, enum values, possible types or input fields |
| Schema.LoadTypes | quiz/schema.py:390-395 | `_load_types` needs `raw_schema["types"]`, and succeeds exactly when every entry deserialises and casts, giving one cast type per entry in order |
| Schema.ObjectTypesUnloadable | quiz/schema.py:531-539 | as written, one object type among the raw types makes loading raise, while the corrected cast accepts that same entry |
| Schema.AddGenerated | quiz/schema.py:300-307 | the generator keeps every entry already in the map and appends, in order, a generated class for schema scalars only, each under a name no earlier entry has |
| Schema.AddGeneratedSpec | quiz/schema.py:300-307 | the generator adds a class exactly for each schema scalar not yet named, never replacing an existing entry |
| Schema.ScalarMapSpec | quiz/schema.py:298-307 | the scalar map names exactly the user, built-in and schema scalars; built-ins win over user classes, user classes over generated ones |
| Schema.OptionalRoot | quiz/schema.py:344-351 | a falsy mutation or subscription entry is kept as is (null stays null); a truthy one resolves its `name` to a known class |
| Schema.RootTypes | quiz/schema.py:343-352 | the query root is a known class named by `raw_schema["queryType"]["name"]`, and the other two roots are as `OptionalRoot` gives them |
| Schema.RootTypesOf | quiz/schema.py:343-352 | for a raw schema that names known root classes (or nulls), the roots resolve to exactly those classes |
| TypeRefs.LookupClass | quiz/schema.py:144 | `classes[ref.name]` succeeds exactly for a string naming a class; an unhashable list or dict name is a `TypeError`, any other a `KeyError` |
| TypeRefs.Resolve | quiz/schema.py:132-137 | the result is Nullable exactly when the reference is not `NON_NULL`, never doubly Nullable and naming only known classes; `NON_NULL` without `ofType` raises `AttributeError` |
| TypeRefs.ResolveRequired | quiz/schema.py:140-144 | a `NON_NULL` reference fails the assertion; a `LIST` without `ofType` raises `AttributeError`; a success is never Nullable |
| TypeRefs.ResolveList | quiz/schema/to_types.py:96-100 | a list reference resolves exactly when its element reference does, to the list of that element |
| TypeRefs.NonNullInNonNull | quiz/schema/to_types.py:88-90 | `NON_NULL` of `NON_NULL` trips the assertion of `_resolve_typeref_required` |
| TypeRefs.ResolveToRef | quiz/schema/to_types.py:88-100 | every canonical type expression over known classes is what its introspection reference resolves to |
| TypeRefs.ResolveBareRef | quiz/schema/to_types.py:96-100 | the same round trip for the non-nullable part `_resolve_typeref_required` handles |
| TypeRefs.ToRefResolve | quiz/schema/to_types.py:88-100 | every well-formed reference resolves, and writing the result back as a reference gives the original |
| TypeRefs.BareRefResolve | quiz/schema/to_types.py:96-100 | the same inverse for references without an outer `NON_NULL` |
| TypeRefs.ListExamples | quiz/schema/to_types.py:88-100 | `[Foo]` resolves to `Nullable[List[Nullable[Foo]]]` and `[Foo!]!` to `List[Foo]` |
| TypeRefs.MissingClass | quiz/schema/to_types.py:100 | a name that is not a class raises `KeyError`, with or without `NON_NULL` |
| ToTypes.SlotItems | quiz/schema/to_types.py:23 | iterating a slot of a cast type: a list gives its items, an empty string or dict gives nothing, and null or any other falsy value raises `TypeError` |
| ToTypes.ChainGet | quiz/schema/to_types.py:141-143 | `ChainMap` lookup: a key is found exactly when some map has it, and the first such map answers |
| ToTypes.ChainKeysGet | quiz/schema/to_types.py:141-143 | the keys of the `ChainMap` are exactly the keys it can look up |
| ToTypes.NameOf | quiz/schema/to_types.py:21-22 | `type()` and `Enum()` accept exactly string names, and refuse others with `TypeError` |
| ToTypes.CheckScalars | quiz/schema/to_types.py:111-117 | `build` goes on exactly when every schema scalar name is a string naming a user or built-in scalar; otherwise the exception names exactly the undefined names (or is a `TypeError` for names that cannot be hashed or joined) |
| ToTypes.EnumAsType | quiz/schema/to_types.py:37-44 | an enum has one member per distinct raw value name, in order of first occurrence, each valued by its own name; a null slot or a non-string name raises `TypeError` |
| ToTypes.EnumMembersInOrder | quiz/schema/to_types.py:39 | with distinct raw names, the enum has exactly the raw values as members, in order |
| ToTypes.LookupAll | quiz/schema/to_types.py:23 | a sequence of references resolves exactly when each names a class, to those names in order, and otherwise raises what the first failed lookup raises |
| ToTypes.ObjectAsType | quiz/schema/to_types.py:18-25 | an object class is made exactly when its interfaces all exist and are distinct and its name is a string; its bases are its interfaces in order; a missing interface is a `KeyError` |
| ToTypes.UnionAsType | quiz/schema/to_types.py:52-56 | a union is made exactly when it joins at least one object, all of them existing, and has a string name; its members are those objects in order; an empty union is a `TypeError`, a missing object a `KeyError` |
| ToTypes.ClassFor | quiz/schema/to_types.py:18-60 | a class made of a cast type is filed under the type's name, has its kind and refers only to existing interfaces and objects |
| ToTypes.KindEntries | quiz/schema/to_types.py:119-139 | the classes of one kind are made exactly when each type of that kind can be made, in order; a failure is the failure of one of them |
| ToTypes.KindMap | quiz/schema/to_types.py:14-15 | `_namedict` keeps one class per name, each of the given kind and referring only to existing classes |
| ToTypes.ResolveArgs | quiz/schema/to_types.py:71-78 | a field's arguments resolve exactly when every argument type resolves and every argument name is hashable, giving each name with its resolved type in order |
| ToTypes.FieldFor | quiz/schema/to_types.py:65-82 | as written, every field raises `AttributeError`; corrected, a field is built exactly when its arguments and type resolve and its name is a string, naming only known classes |
| ToTypes.AddFields | quiz/schema/to_types.py:63-85 | all of a class's fields are built, in order, exactly when each is; a failure is the failure of one of them |
| ToTypes.AllFields | quiz/schema/to_types.py:146-147 | adding fields to the objects, then the interfaces, succeeds exactly when it succeeds for each class |
| ToTypes.MakeClasses | quiz/schema/to_types.py:119-139 | interfaces, enums, objects, unions and input objects are each made of their own kind; objects refer only to interfaces, unions only to objects |
| ToTypes.Build | quiz/schema/to_types.py:103-149 | an undefined scalar stops `build` before any class is made; a result is the seven maps of the `ChainMap`, led by the user's and the built-in scalars |
| ToTypes.ScalarPrecedence | quiz/schema/to_types.py:111 | in the built `ChainMap` a user scalar shadows everything of its name, and a built-in scalar everything but a user scalar |
| ToTypes.SchemaScalarsDefined | quiz/schema/to_types.py:111-117 | after a successful `build`, every schema scalar names a user or built-in scalar class |
| ToTypes.UndefinedScalarNamed | quiz/schema/to_types.py:112-117 | a schema scalar with no class makes `build` raise an exception that names it |
| ToTypes.BuiltClassesReferToClasses | quiz/schema/to_types.py:127-135 | after `build`, every interface an object inherits and every object a union joins is a class of the result |
| ToTypes.BuiltFieldsResolve | quiz/schema/to_types.py:145-147 | after the corrected `build`, every field of every object and interface, and each of its arguments, has a type naming classes of the result |
| ToTypes.FieldsUnbuildable | quiz/schema/to_types.py:68 | as written, `build` raises `AttributeError` on any schema the corrected `build` accepts that has an object or interface with a field |

## Left out

- Values.TypeRepr: writes `<class 'Name'>` without the module qualification Python prints (`<class 'quiz.types.Int'>`, or the `module_name` the schema classes are built with), because the model keeps no module names.
- Coercion.CoerceNamed: the class representations in its "No coercion defined to type …" and "Invalid type …" messages are written in the same unqualified form.
- Coercion.CoerceNamed: the "Dict with non-string key" branch of `InputObject.coerce` (quiz/types.py:347) cannot arise, because the keys of a `Values.PyValue` dict are strings.
- Values.PyValue: dict keys are strings only; Python's other hashable keys (ints, tuples) are not represented.
- TypesValidation.ArgsOutcome: `actual.replace(kwargs=args)` is modelled as a functional update of the field. The `Field` of quiz/build.py is a frozen dataclass without a `replace` method, so the code as written would raise `AttributeError` there; that revision mismatch is not modelled.
- RaisingValidation.FirstUnknown: `set.pop()` returns an arbitrary unknown argument name; the model names the first one in the order given, and its contract promises only that the name is unknown and was given.
- Introspection.MakeTypeRef: a falsy `ofType` that is not null (`{}`, `false`, `""`) becomes "no inner reference", where quiz/schema/raw.py:151 keeps the raw falsy value. Both end in `AttributeError` once the reference is resolved.
- Coercion.CoerceFloat: floats are carried by their `repr` string; rounding, `float()` of large integers and the formatting of `str(float)` are not modelled.
- Loading.FloatOf: the `repr` of the float `float()` computes is not derived for a numeric string or for an integer beyond `2^53`: the model keeps the stripped text, or the integer's digits followed by `.0`, where Python rounds to a double and may print `1e+16` (`float(10**16)`) or `1000.0` (`float("1_000")`). `float()` also accepts digits of other Unicode scripts and full-width spaces, which `Floats.FloatLiteral` does not; such strings raise `ValueError` in the model.
- Core.ArgumentAsGql: whether an enum class derives from quiz/core.py's `Enum` is not recorded in a `Values.PyValue`, so the set of such classes is the parameter `enums`.
- Catalogs.LookupField: `getattr(cls, name)` also finds class attributes that are not fields, such as `mro`, `coerce` or `__init__`. There quiz/types.py:800-804 gives `Ok` of the attribute, and src/quiz/types.py:262 passes it on. The model holds only the fields, so it reports no such field (`TypesValidation.GetField` gives `Err("Field does not exist.")`).
- QuizBuild.GqlAsWritten: the layout is promised only when every serialised argument breaks lines at `\n` alone; a string holding U+2028 or another separator `textwrap.indent` honours is the subject of the quiz/build.py:263 finding (`QuizBuild.SeparatorIndented`). The same condition applies to `QuizBuild.QueryGql`, `SrcBuild.Gql`, `SrcBuild.QueryGql`, `Core.Gql` and `Core.OperationGql`.
- Loading.ScalarHook: `__gql_load__` of a user scalar class is user code, so the model takes it as a parameter.
- Values.PyValue: likewise, `__gql_dump__` of a user scalar is user code; a `PScalar` value carries its dumped text, or none when the hook fails.
- ToTypes.UnionAsType: the class name `union.__name__` sets is taken to be a string; Python's collapsing of a one-member `t.Union` into that member, and of duplicate members, is not modelled (the member list is kept as given).
- ToTypes.ResolveArgs: the `FrozenDict` of arguments keeps one entry per name in Python; the model keeps the sequence, duplicates included.
- ToTypes.FieldFor: the corrected field is described by its name, resolved argument types and resolved type; descriptions and deprecation data are not kept.
- quiz/types.py:741-767 `_validate_args`: not called anywhere in the source; the raising validators of src/quiz/types.py and quiz/core.py are modelled by `RaisingValidation` instead.
- Sending queries and reading responses (quiz/execution.py, HTTP, async execution, `ErrorResponse`, `HTTPError`, the metadata `load` attaches at quiz/types.py:885-887): I/O and concurrency.
- `Schema.from_path`, `to_path`, `from_url`, `populate_module`: file, network and module-registry side effects.
- Class generation and reflection as such (`type()`, metaclasses, descriptors, `__doc__`, `__repr__`, `__hash__`): classes are represented by `Catalogs.TypeExpr` and a name-to-definition map, and equality is structural.
- quiz/compat.py, setup files, documentation and examples: no logic of the core.
- Unreachable statements after `return` in quiz/types.py (534, 700-704).

## Findings

| source | as written | input that shows it | evidently intended | confidence | as-written member | corrected member |
|---|---|---|---|---|---|---|
| quiz/types.py:616 | `Int.coerce` accepts only `MIN_INT < value < MAX_INT` | `-2147483648` or `2147483647` is refused with "Integer beyond 32-bit limit." | every signed 32-bit integer, bounds included, is a GraphQL `Int` | not executed | Coercion.IntBoundsRejected | Coercion.CoerceInt |
| quiz/schema.py:533-539 | `KIND_CAST[Kind.OBJECT]` passes `input_fields=` to the `Object` dataclass, which has no such field | any schema with an object type (every schema has a query root) | cast an object with its name, description, interfaces and fields | not executed | Schema.ObjectTypesUnloadable | Schema.KindCast |
| quiz/types.py:785-789 | with invalid arguments and a valid sub-selection, the error is `f"{args_result.err()}\n{e}"` with `e` already that same message | a field with an unknown argument and a correct sub-selection | the arguments' message once | not executed | TypesValidation.ArgsMessageRepeated | TypesValidation.CorrectedMessage |
| quiz/build.py:263 | `textwrap.indent` also breaks lines at U+2028, U+000B, U+001C and the like, which `escape` leaves inside string literals | an argument string made of `x`, U+2028 and `y` gets indentation inserted after the U+2028 | indent only at the newlines the renderer writes | not executed | QuizBuild.SeparatorIndented | QuizBuild.Gql |
| quiz/types.py:854 | `load_field` has no branch for the `Int`, `Float`, `Boolean`, `String` and `ID` wrappers and asserts that a JSON value is an `AnyScalar` instance | a field of type `Int` with value `3` raises `NotImplementedError` | load them with their `__gql_load__` | not executed | Loading.WrappersUnloadable | Loading.WrappersLoadCorrected |
| quiz/types.py:128-131 | after the first error, `sequence` enumerates the whole list again from `i + 1` | `sequence([Err(e), Ok(v)])` on a list gives `Err([(0, e), (1, e)])`; the two callers in the library pass generators, so there it does not show | report the errors at their own positions | not executed | Results.SequenceOfListMislabels | Results.Sequence |
| quiz/build.py:375-377 | `escape` rewrites only the seven characters of its table, leaving other control characters bare | the string `"\u0001"` is dumped as a literal a GraphQL reader refuses | escape every control character (`\u00XX`), so every dumped string reads back | not executed | QuizBuild.ControlCharacterDump | Escape.EscapeFullRoundTrip |
| quiz/schema/to_types.py:68 | `_add_fields` builds `types.FieldSchema`, which quiz/types.py does not define | any object or interface with a field raises `AttributeError` | build the `FieldDefinition`/`InputValueDefinition` classes of quiz/types.py | not executed | ToTypes.FieldsUnbuildable | ToTypes.BuiltFieldsResolve |
