/** Validation of a selection set in quiz/types.py (`validate_field`,
    `_get_field`, `validate_selection_set`): the result is the selection set
    with every argument value validated, or a message naming each invalid
    field, nested as deep as the fault. */
module TypesValidation {
  import opened Exceptions
  import opened Results
  import opened Catalogs
  import opened Values
  import opened Text
  import opened Selections
  import opened Coercion
  import opened CoercionFacts

  /** How `validate_field` combines the outcome of its arguments with that of
      its sub-selection. As written, a field whose sub-selection is valid
      but whose arguments are not reports the arguments' message twice. */
  function Combine(args: Result<Selection, string>, sel: Result<SelectionSet, string>, rev: Revision): (r: Result<Selection, string>)
    requires args.Ok? ==> args.value.Field?
    ensures r.Ok? <==> args.Ok? && sel.Ok?
    ensures r.Ok? ==> r.value == Field(args.value.name, args.value.kwargs, sel.value, args.value.alias)
    ensures rev == Corrected && r.Err? ==>
      r.error == Join("\n", (if args.Err? then [args.error] else []) + (if sel.Err? then [sel.error] else []))
  {
    match sel
    case Ok(s) =>
      (match args
       case Ok(f) => Ok(Field(f.name, f.kwargs, s, f.alias))
       case Err(a) => Err(if rev == AsWritten then a + "\n" + a else a))
    case Err(e) => Err(if args.Ok? then e else args.error + "\n" + e)
  }

  /** The arguments' half of `validate_field`: the field with its validated
      arguments, or the messages about them. */
  function ArgsOutcome(f: Selection, args: Result<seq<(string, PyValue)>, string>): (r: Result<Selection, string>)
    requires f.Field?
    ensures r.Ok? <==> args.Ok?
    ensures r.Ok? ==> r.value.Field? && r.value.kwargs == args.value
    ensures r.Ok? ==> r.value.name == f.name && r.value.alias == f.alias && r.value.selectionSet == f.selectionSet
  {
    match args
    case Ok(a) => Ok(f.(kwargs := a))
    case Err(e) => Err("Invalid arguments:\n" + IndentMsg(e))
  }

  /** `validate_field(schema, actual)` for the field definition `fd`. */
  function ValidateField(cat: Catalog, fd: FieldDef, f: Selection, rev: Revision): (r: Raising<Result<Selection, string>>)
    requires f.Field?
    ensures r.Returned? && r.value.Ok? ==>
      r.value.value.Field? && r.value.value.name == f.name && r.value.value.alias == f.alias
    ensures r.Returned? && r.value.Ok? && !HasFields(cat, Unwrap(fd.typ)) ==>
      r.value.value.selectionSet == f.selectionSet == NoSelections
    decreases f, 0
  {
    var args :- ValidateArgs(cat, fd.args, f.kwargs, rev);
    var argsResult := ArgsOutcome(f, args);
    var n := Unwrap(fd.typ);
    if HasFields(cat, n) then
      var sel :- ValidateSelectionSet(cat, n, f.selectionSet, rev);
      Returned(Combine(argsResult, sel, rev))
    else if |f.selectionSet.items| > 0 then Raised(NotImplementedError)
    else Returned(argsResult)
  }

  /** What `validate_field` keeps of its two halves: a field it accepts
      carries the validated arguments and, when its type has fields, the
      validated sub-selection. */
  lemma ValidateFieldParts(cat: Catalog, fd: FieldDef, f: Selection, rev: Revision)
    requires f.Field?
    ensures var r := ValidateField(cat, fd, f, rev);
      r.Returned? && r.value.Ok? ==> ValidateArgs(cat, fd.args, f.kwargs, rev) == Returned(Ok(r.value.value.kwargs))
    ensures var r := ValidateField(cat, fd, f, rev);
      r.Returned? && r.value.Ok? && HasFields(cat, Unwrap(fd.typ)) ==>
        ValidateSelectionSet(cat, Unwrap(fd.typ), f.selectionSet, rev) == Returned(Ok(r.value.value.selectionSet))
  {
  }

  /** `_get_field(cls, name)`. */
  function GetField(cat: Catalog, cls: string, name: string): (r: Result<FieldDef, string>)
    ensures r.Ok? <==> LookupField(cat, cls, name).Some?
    ensures r.Ok? ==> r.value.name == name
  {
    match LookupField(cat, cls, name)
    case Some(fd) => Ok(fd)
    case None => Err("Field does not exist.")
  }

  /** One item of `validate_selection_set`: the field's definition looked
      up, then the field validated against it. An inline fragment has no
      name to look up. */
  function ValidateItem(cat: Catalog, cls: string, s: Selection, rev: Revision): (r: Raising<Result<Selection, string>>)
    ensures r.Returned? ==> s.Field?
    ensures r.Returned? && r.value.Ok? ==>
      r.value.value.Field? && r.value.value.name == s.name && r.value.value.alias == s.alias
    decreases s, 1
  {
    if s.InlineFragment? then Raised(AttributeError)
    else match GetField(cat, cls, s.name)
      case Err(e) => Returned(Err(e))
      case Ok(fd) => ValidateField(cat, fd, s, rev)
  }

  /** The items of `ss` from index `i` on, each validated; the first to
      raise decides the exception. */
  function ValidateEach(cat: Catalog, cls: string, ss: SelectionSet, i: nat, rev: Revision): (r: Raising<seq<Result<Selection, string>>>)
    requires i <= |ss.items|
    ensures r.Returned? ==> |r.value| == |ss.items| - i
    ensures r.Returned? ==> forall k | i <= k < |ss.items| :: ss.items[k].Field?
    ensures r.Returned? ==> forall k | 0 <= k < |r.value| :: r.value[k].Ok? ==>
      r.value[k].value.Field? && r.value[k].value.name == ss.items[i + k].name && r.value[k].value.alias == ss.items[i + k].alias
    decreases ss, 1, |ss.items| - i
  {
    if i == |ss.items| then Returned([])
    else
      var first :- ValidateItem(cat, cls, ss.items[i], rev);
      var rest :- ValidateEach(cat, cls, ss, i + 1, rev);
      Returned([first] + rest)
  }

  /** The message for the invalid fields of `ss`. */
  function FieldMessages(ss: SelectionSet, errs: seq<(nat, string)>): (ms: seq<string>)
    requires forall k | 0 <= k < |errs| :: errs[k].0 < |ss.items| && ss.items[errs[k].0].Field?
    ensures |ms| == |errs|
  {
    if |errs| == 0 then []
    else ["Invalid field `" + ss.items[errs[0].0].name + "`:\n" + IndentMsg(errs[0].1)] + FieldMessages(ss, errs[1..])
  }

  /** `validate_selection_set(cls, ss)`: an empty selection set is invalid;
      otherwise every field is validated, and the result keeps the fields'
      order, names and aliases. */
  function ValidateSelectionSet(cat: Catalog, cls: string, ss: SelectionSet, rev: Revision): (r: Raising<Result<SelectionSet, string>>)
    ensures |ss.items| == 0 ==> r == Returned(Err("Empty selection set."))
    ensures r.Returned? && r.value.Ok? ==>
      && |r.value.value.items| == |ss.items|
      && forall k | 0 <= k < |ss.items| ::
        && r.value.value.items[k].Field? && ss.items[k].Field?
        && r.value.value.items[k].name == ss.items[k].name
        && r.value.value.items[k].alias == ss.items[k].alias
    decreases ss, 2
  {
    if |ss.items| == 0 then Returned(Err("Empty selection set."))
    else
      var rs :- ValidateEach(cat, cls, ss, 0, rev);
      assert forall k | 0 <= k < |rs| :: rs[k] == rs[k - 0];
      match Sequence(rs)
      case Ok(items) =>
        assert forall k | 0 <= k < |rs| :: rs[k].Ok? && items[k] == rs[k].value;
        Returned(Ok(SelectionSet(items)))
      case Err(errs) => Returned(Err(Join("\n", FieldMessages(ss, errs))))
  }

  // ---------------------------------------------------------------------
  // What validation accepts

  /** A selection set quiz/types.py accepts against the class `cls`: not
      empty, and every item a field of `cls` that is valid. */
  predicate SetValid(cat: Catalog, cls: string, ss: SelectionSet, rev: Revision)
    decreases ss, 1
  {
    |ss.items| > 0 && forall k | 0 <= k < |ss.items| :: ItemValid(cat, cls, ss.items[k], rev)
  }

  /** A field of `cls` whose arguments validate and whose sub-selection is a
      valid selection set of the field's unwrapped type when that type has
      fields, and empty otherwise. */
  predicate ItemValid(cat: Catalog, cls: string, s: Selection, rev: Revision)
    decreases s, 0
  {
    && s.Field?
    && LookupField(cat, cls, s.name).Some?
    && var fd := LookupField(cat, cls, s.name).value;
    && ArgsCoerce(cat, fd.args, s.kwargs, rev)
    && (if HasFields(cat, Unwrap(fd.typ)) then SetValid(cat, Unwrap(fd.typ), s.selectionSet, rev)
        else |s.selectionSet.items| == 0)
  }

  /** A non-empty selection set is valid by validation when each of its
      items is. */
  lemma SelectionSetUnfold(cat: Catalog, cls: string, ss: SelectionSet, rev: Revision)
    requires |ss.items| > 0
    ensures var r := ValidateSelectionSet(cat, cls, ss, rev);
      var each := ValidateEach(cat, cls, ss, 0, rev);
      && (r.Returned? <==> each.Returned?)
      && (r.Returned? ==> (r.value.Ok? <==> AllOk(each.value)))
  {
  }

  /** When validation returns, it succeeds exactly on valid selection sets;
      the revision does not matter for success. */
  lemma {:induction false} SelectionSetDecides(cat: Catalog, cls: string, ss: SelectionSet, rev: Revision)
    ensures var r := ValidateSelectionSet(cat, cls, ss, rev);
      r.Returned? ==> (r.value.Ok? <==> SetValid(cat, cls, ss, rev))
    decreases ss, 2
  {
    if |ss.items| > 0 {
      var r := ValidateEach(cat, cls, ss, 0, rev);
      SelectionSetUnfold(cat, cls, ss, rev);
      if r.Returned? {
        assert forall k | 0 <= k < |ss.items| :: (r.value[k].Ok? <==> ItemValid(cat, cls, ss.items[k], rev)) by {
          EachDecides(cat, cls, ss, 0, rev);
          assert forall k | 0 <= k < |ss.items| :: r.value[k] == r.value[k - 0];
        }
      }
    }
  }

  lemma {:induction false} EachDecides(cat: Catalog, cls: string, ss: SelectionSet, i: nat, rev: Revision)
    requires i <= |ss.items|
    ensures var r := ValidateEach(cat, cls, ss, i, rev);
      r.Returned? ==> forall k | i <= k < |ss.items| :: (r.value[k - i].Ok? <==> ItemValid(cat, cls, ss.items[k], rev))
    decreases ss, 1, |ss.items| - i
  {
    if i < |ss.items| {
      var r := ValidateEach(cat, cls, ss, i, rev);
      if r.Returned? {
        ItemDecides(cat, cls, ss.items[i], rev);
        EachDecides(cat, cls, ss, i + 1, rev);
        var rest := ValidateEach(cat, cls, ss, i + 1, rev);
        assert r.value == [ValidateItem(cat, cls, ss.items[i], rev).value] + rest.value;
        forall k | i < k < |ss.items|
          ensures r.value[k - i].Ok? <==> ItemValid(cat, cls, ss.items[k], rev)
        {
          assert r.value[k - i] == rest.value[k - (i + 1)];
        }
      }
    }
  }

  lemma {:induction false} ItemDecides(cat: Catalog, cls: string, s: Selection, rev: Revision)
    ensures var r := ValidateItem(cat, cls, s, rev);
      r.Returned? ==> (r.value.Ok? <==> ItemValid(cat, cls, s, rev))
    decreases s, 0
  {
    if s.Field? && LookupField(cat, cls, s.name).Some? {
      var fd := LookupField(cat, cls, s.name).value;
      if ArgsCoerce(cat, fd.args, s.kwargs, rev) {
        ValidateArgsAccepts(cat, fd.args, s.kwargs, rev);
      } else {
        ValidateArgsRejects(cat, fd.args, s.kwargs, rev);
      }
      var n := Unwrap(fd.typ);
      if HasFields(cat, n) {
        SelectionSetDecides(cat, n, s.selectionSet, rev);
      }
    }
  }

  // ---------------------------------------------------------------------
  // The repeated message

  /** As written, a field with invalid arguments under a valid sub-selection
      reports the arguments' message twice; the correction reports it once. */
  lemma ArgsMessageRepeated(cat: Catalog, fd: FieldDef, f: Selection, a: string)
    requires f.Field? && HasFields(cat, Unwrap(fd.typ))
    requires ValidateArgs(cat, fd.args, f.kwargs, AsWritten) == Returned(Err(a))
    requires ValidateSelectionSet(cat, Unwrap(fd.typ), f.selectionSet, AsWritten).Returned?
    requires ValidateSelectionSet(cat, Unwrap(fd.typ), f.selectionSet, AsWritten).value.Ok?
    ensures var m := "Invalid arguments:\n" + IndentMsg(a);
      ValidateField(cat, fd, f, AsWritten) == Returned(Err(m + "\n" + m))
  {
  }

  /** The correction names each failing part of a field once: the
      arguments' message, the sub-selection's, or both in that order. */
  lemma CorrectedMessage(cat: Catalog, fd: FieldDef, f: Selection)
    requires f.Field? && HasFields(cat, Unwrap(fd.typ))
    ensures var r := ValidateField(cat, fd, f, Corrected);
      r.Returned? && r.value.Err? ==>
        var args := ValidateArgs(cat, fd.args, f.kwargs, Corrected).value;
        var sel := ValidateSelectionSet(cat, Unwrap(fd.typ), f.selectionSet, Corrected).value;
        r.value.error == Join("\n",
          (if args.Err? then ["Invalid arguments:\n" + IndentMsg(args.error)] else [])
          + (if sel.Err? then [sel.error] else []))
  {
  }
}
