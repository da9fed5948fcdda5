/** The validator of src/quiz/types.py and of quiz/core.py: the two files
    hold the same algorithm, differing only in the name of the exception
    base class they catch (`ValidationError` and `Error`). A selection set
    is checked against a class of the catalog field by field; the first
    invalid field raises a `SelectionError` naming the class and the field,
    which wraps the error found inside it. */
module RaisingValidation {
  import opened Results
  import opened Exceptions
  import opened Catalogs
  import opened Values
  import opened Dicts
  import opened Selections
  import opened Membership

  datatype ValidationError =
    | NoSuchField
    | NoSuchArgument(name: string)
    | MissingArgument(name: string)
    | InvalidArgumentType(name: string, value: PyValue)
    | SelectionsNotSupported
    | SelectionError(on: string, path: string, error: ValidationError)

  /** What escapes `validate`: a validation error, or an exception the
      validator does not catch. */
  datatype Failure = Invalid(error: ValidationError) | Uncaught(exc: Exc)

  // ---------------------------------------------------------------------
  // Arguments

  /** The given arguments meet the schema's argument `a`: an absent one must
      be of a `Nullable` type, a present one must be an instance of its type. */
  predicate ArgSatisfied(cat: Catalog, a: ArgDef, actual: seq<(string, PyValue)>) {
    match Get(actual, a.name)
    case None => IsNullable(a.typ)
    case Some(v) => IsInstance(cat, v, a.typ)
  }

  /** Arguments a field accepts: every given name is defined, and every
      defined argument is satisfied. */
  predicate ArgsValid(cat: Catalog, schema: seq<ArgDef>, actual: seq<(string, PyValue)>) {
    && (forall k | 0 <= k < |actual| :: DefinesArg(schema, actual[k].0))
    && (forall i | 0 <= i < |schema| :: ArgSatisfied(cat, schema[i], actual))
  }

  /** The error that reports the unsatisfied argument `a`. */
  predicate Reports(cat: Catalog, a: ArgDef, actual: seq<(string, PyValue)>, e: ValidationError) {
    match Get(actual, a.name)
    case None => e == MissingArgument(a.name) && !IsNullable(a.typ)
    case Some(v) => e == InvalidArgumentType(a.name, v) && !IsInstance(cat, v, a.typ)
  }

  /** Argument `k` is the first of the schema, in schema order, that the
      given arguments do not satisfy. */
  predicate FirstUnsatisfied(cat: Catalog, schema: seq<ArgDef>, actual: seq<(string, PyValue)>, k: int) {
    && 0 <= k < |schema|
    && !ArgSatisfied(cat, schema[k], actual)
    && forall j | 0 <= j < k :: ArgSatisfied(cat, schema[j], actual)
  }

  /** A given argument name the schema does not define. `set.pop()` picks
      an arbitrary one; the model picks the first in the order given. */
  function FirstUnknown(schema: seq<ArgDef>, actual: seq<(string, PyValue)>): (r: Option<string>)
    ensures r.None? <==> forall k | 0 <= k < |actual| :: DefinesArg(schema, actual[k].0)
    ensures r.Some? ==> HasKey(actual, r.value) && !DefinesArg(schema, r.value)
  {
    if |actual| == 0 then None
    else if !DefinesArg(schema, actual[0].0) then Some(actual[0].0)
    else
      var r := FirstUnknown(schema, actual[1..]);
      assert forall k | 0 <= k < |actual| - 1 :: actual[1..][k] == actual[k + 1];
      assert r.Some? ==> exists k | 0 <= k < |actual| - 1 :: actual[1..][k].0 == r.value;
      r
  }

  /** The loop over the schema's arguments from index `i` on. */
  function CheckArgs(cat: Catalog, schema: seq<ArgDef>, actual: seq<(string, PyValue)>, i: nat): (r: Option<ValidationError>)
    requires i <= |schema|
    ensures r.None? <==> forall k | i <= k < |schema| :: ArgSatisfied(cat, schema[k], actual)
    ensures r.Some? ==> exists k | i <= k < |schema| ::
      && !ArgSatisfied(cat, schema[k], actual)
      && (forall j | i <= j < k :: ArgSatisfied(cat, schema[j], actual))
      && Reports(cat, schema[k], actual, r.value)
    decreases |schema| - i
  {
    if i == |schema| then None
    else match Get(actual, schema[i].name)
      case None =>
        if IsNullable(schema[i].typ) then CheckArgs(cat, schema, actual, i + 1)
        else Some(MissingArgument(schema[i].name))
      case Some(v) =>
        if IsInstance(cat, v, schema[i].typ) then CheckArgs(cat, schema, actual, i + 1)
        else Some(InvalidArgumentType(schema[i].name, v))
  }

  /** `_validate_args`: unknown names first; then, in schema order, the first
      argument that is missing (and not `Nullable`) or not an instance of
      its type. The arguments come back unchanged. */
  function ValidateArgs(cat: Catalog, schema: seq<ArgDef>, actual: seq<(string, PyValue)>): (r: Result<seq<(string, PyValue)>, ValidationError>)
    ensures r.Ok? <==> ArgsValid(cat, schema, actual)
    ensures r.Ok? ==> r.value == actual
    ensures r.Err? && r.error.NoSuchArgument? ==> HasKey(actual, r.error.name) && !DefinesArg(schema, r.error.name)
    ensures r.Err? && !r.error.NoSuchArgument? ==>
      && (forall k | 0 <= k < |actual| :: DefinesArg(schema, actual[k].0))
      && exists k :: FirstUnsatisfied(cat, schema, actual, k) && Reports(cat, schema[k], actual, r.error)
  {
    var unknown := FirstUnknown(schema, actual);
    if unknown.Some? then Err(NoSuchArgument(unknown.value))
    else
      var check := CheckArgs(cat, schema, actual, 0);
      if check.Some? then Err(check.value) else Ok(actual)
  }

  // ---------------------------------------------------------------------
  // Fields and selection sets

  /** What a valid selection set is: every selection is a field the class
      has, its arguments are valid, and a non-empty sub-selection is only
      on a field whose unwrapped type has fields, and is valid against it.
      An empty sub-selection is fine on any field. */
  predicate Valid(cat: Catalog, cls: string, ss: SelectionSet)
    decreases ss, 1
  {
    forall i | 0 <= i < |ss.items| :: ItemValid(cat, cls, ss.items[i])
  }

  predicate ItemValid(cat: Catalog, cls: string, s: Selection)
    decreases s, 0
  {
    && s.Field?
    && match LookupField(cat, cls, s.name)
       case None => false
       case Some(fd) =>
         && ArgsValid(cat, fd.args, s.kwargs)
         && (|s.selectionSet.items| > 0 ==> HasFields(cat, Unwrap(fd.typ)) && Valid(cat, Unwrap(fd.typ), s.selectionSet))
  }

  /** `_validate_field`: a field the class lacks, then its arguments, then
      its sub-selection. */
  function ValidateField(cat: Catalog, schema: Option<FieldDef>, f: Selection): (r: Result<Selection, Failure>)
    requires f.Field?
    ensures schema.None? ==> r == Err(Invalid(NoSuchField))
    ensures r.Ok? ==> r.value == f
    ensures schema.Some? && ValidateArgs(cat, schema.value.args, f.kwargs).Err? ==>
      r == Err(Invalid(ValidateArgs(cat, schema.value.args, f.kwargs).error))
    ensures schema.Some? && ArgsValid(cat, schema.value.args, f.kwargs) && |f.selectionSet.items| > 0 && !HasFields(cat, Unwrap(schema.value.typ)) ==>
      r == Err(Invalid(SelectionsNotSupported))
    ensures schema.Some? && |f.selectionSet.items| == 0 ==> (r.Ok? <==> ArgsValid(cat, schema.value.args, f.kwargs))
    decreases f, 0
  {
    if schema.None? then Err(Invalid(NoSuchField))
    else match ValidateArgs(cat, schema.value.args, f.kwargs)
      case Err(e) => Err(Invalid(e))
      case Ok(_) =>
        if |f.selectionSet.items| > 0 then
          var n := Unwrap(schema.value.typ);
          if !HasFields(cat, n) then Err(Invalid(SelectionsNotSupported))
          else match Validate(cat, n, f.selectionSet)
            case Err(e) => Err(e)
            case Ok(_) => Ok(f)
        else Ok(f)
  }

  /** The loop of `validate` from the selection at index `i` on; `None` when
      every one is valid. An inline fragment has no `name`, and the
      `AttributeError` escapes. */
  function ValidateFrom(cat: Catalog, cls: string, ss: SelectionSet, i: nat): Option<Failure>
    requires i <= |ss.items|
    decreases ss, 1, |ss.items| - i
  {
    if i == |ss.items| then None
    else
      var s := ss.items[i];
      if s.InlineFragment? then Some(Uncaught(AttributeError))
      else match ValidateField(cat, LookupField(cat, cls, s.name), s)
        case Err(Invalid(e)) => Some(Invalid(SelectionError(cls, s.name, e)))
        case Err(Uncaught(x)) => Some(Uncaught(x))
        case Ok(_) => ValidateFrom(cat, cls, ss, i + 1)
  }

  /** `validate(cls, selection_set)`: the selection set itself, or the failure. */
  function Validate(cat: Catalog, cls: string, ss: SelectionSet): (r: Result<SelectionSet, Failure>)
    ensures r.Ok? ==> r.value == ss
    ensures |ss.items| == 0 ==> r == Ok(ss)
    decreases ss, 2
  {
    match ValidateFrom(cat, cls, ss, 0)
    case None => Ok(ss)
    case Some(failure) => Err(failure)
  }

  // ---------------------------------------------------------------------
  // The validator decides exactly `Valid`

  /** `validate` succeeds exactly on the valid selection sets. */
  lemma {:induction false} ValidateDecides(cat: Catalog, cls: string, ss: SelectionSet)
    ensures Validate(cat, cls, ss).Ok? <==> Valid(cat, cls, ss)
    decreases ss, 2
  {
    ValidateFromDecides(cat, cls, ss, 0);
  }

  lemma {:induction false} ValidateFromDecides(cat: Catalog, cls: string, ss: SelectionSet, i: nat)
    requires i <= |ss.items|
    ensures ValidateFrom(cat, cls, ss, i).None? <==> forall k | i <= k < |ss.items| :: ItemValid(cat, cls, ss.items[k])
    decreases ss, 1, |ss.items| - i
  {
    if i < |ss.items| {
      var s := ss.items[i];
      if s.Field? {
        ValidateFieldDecides(cat, cls, s);
      }
      ValidateFromDecides(cat, cls, ss, i + 1);
    }
  }

  lemma {:induction false} ValidateFieldDecides(cat: Catalog, cls: string, s: Selection)
    requires s.Field?
    ensures ValidateField(cat, LookupField(cat, cls, s.name), s).Ok? <==> ItemValid(cat, cls, s)
    decreases s, 0
  {
    var fd := LookupField(cat, cls, s.name);
    if fd.Some? && ArgsValid(cat, fd.value.args, s.kwargs) && |s.selectionSet.items| > 0 && HasFields(cat, Unwrap(fd.value.typ)) {
      ValidateDecides(cat, Unwrap(fd.value.typ), s.selectionSet);
    }
  }

  /** A failure that is a validation error names the class and the first
      invalid selection, which is a field; every selection before it is valid. */
  lemma FirstFailureReported(cat: Catalog, cls: string, ss: SelectionSet)
    ensures var r := Validate(cat, cls, ss);
      r.Err? && r.error.Invalid? ==>
        && r.error.error.SelectionError?
        && r.error.error.on == cls
        && exists k | 0 <= k < |ss.items| ::
          && ss.items[k].Field?
          && ss.items[k].name == r.error.error.path
          && !ItemValid(cat, cls, ss.items[k])
          && forall j | 0 <= j < k :: ItemValid(cat, cls, ss.items[j])
  {
    FirstFailureFrom(cat, cls, ss, 0);
  }

  lemma {:induction false} FirstFailureFrom(cat: Catalog, cls: string, ss: SelectionSet, i: nat)
    requires i <= |ss.items|
    ensures var r := ValidateFrom(cat, cls, ss, i);
      r.Some? && r.value.Invalid? ==>
        && r.value.error.SelectionError?
        && r.value.error.on == cls
        && exists k | i <= k < |ss.items| ::
          && ss.items[k].Field?
          && ss.items[k].name == r.value.error.path
          && !ItemValid(cat, cls, ss.items[k])
          && forall j | i <= j < k :: ItemValid(cat, cls, ss.items[j])
    decreases |ss.items| - i
  {
    var r := ValidateFrom(cat, cls, ss, i);
    if i < |ss.items| && r.Some? && r.value.Invalid? {
      var s := ss.items[i];
      assert s.Field?;
      ValidateFieldDecides(cat, cls, s);
      if ValidateField(cat, LookupField(cat, cls, s.name), s).Ok? {
        FirstFailureFrom(cat, cls, ss, i + 1);
        var k :| i + 1 <= k < |ss.items| && ss.items[k].Field? && ss.items[k].name == r.value.error.path
          && !ItemValid(cat, cls, ss.items[k]) && forall j | i + 1 <= j < k :: ItemValid(cat, cls, ss.items[j]);
        assert forall j | i <= j < k :: ItemValid(cat, cls, ss.items[j]);
      }
    }
  }
}
