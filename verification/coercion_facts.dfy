/** What the argument validation of quiz/types.py guarantees: lists
    validate item by item, and `validate_args` validates each given value
    under its name, rejecting unknown and missing arguments. */
module CoercionFacts {
  import opened Exceptions
  import opened Results
  import opened Catalogs
  import opened Values
  import opened Ordering
  import opened Coercion
  import opened Dicts

  /** A value other than `None` is coerced to `Nullable[t]` as `t` would
      coerce it, the result wrapped. */
  lemma NullableDefers(cat: Catalog, t: TypeExpr, v: PyValue, rev: Revision)
    requires !v.PNone?
    ensures match ValidateValue(cat, t, v, rev)
      case Raised(e) => Coerce(cat, NullableOf(t), v, rev) == Raised(e)
      case Returned(Ok(x)) => Coerce(cat, NullableOf(t), v, rev) == Returned(Ok(NullableW(NullableOf(t), x)))
      case Returned(Err(m)) => Coerce(cat, NullableOf(t), v, rev) == Returned(Err(m))
  {
  }

  /** `ValidateItems` raises exactly when one of the first `n` items raises. */
  lemma {:induction false} ValidateItemsReturns(cat: Catalog, t: TypeExpr, v: PyValue, n: nat, rev: Revision)
    requires t.ListOf? && v.PList? && n <= |v.items|
    ensures ValidateItems(cat, t, v, n, rev).Returned? <==>
      forall k | 0 <= k < n :: ValidateValue(cat, t.inner, v.items[k], rev).Returned?
  {
    if n > 0 {
      ValidateItemsReturns(cat, t, v, n - 1, rev);
      ValidateItemsReturnsStep(cat, t, v, n, rev);
    }
  }

  lemma ValidateItemsReturnsStep(cat: Catalog, t: TypeExpr, v: PyValue, n: nat, rev: Revision)
    requires t.ListOf? && v.PList? && 0 < n <= |v.items|
    requires ValidateItems(cat, t, v, n - 1, rev).Returned? <==>
      forall k | 0 <= k < n - 1 :: ValidateValue(cat, t.inner, v.items[k], rev).Returned?
    ensures ValidateItems(cat, t, v, n, rev).Returned? <==>
      forall k | 0 <= k < n :: ValidateValue(cat, t.inner, v.items[k], rev).Returned?
  {
    var init := ValidateItems(cat, t, v, n - 1, rev);
    var last := ValidateValue(cat, t.inner, v.items[n - 1], rev);
    assert ValidateItems(cat, t, v, n, rev).Returned? <==> init.Returned? && last.Returned?;
  }

  /** `ValidateItems` holds the validation of each of the first `n` items. */
  lemma {:induction false} ValidateItemsValues(cat: Catalog, t: TypeExpr, v: PyValue, n: nat, rev: Revision)
    requires t.ListOf? && v.PList? && n <= |v.items|
    ensures var r := ValidateItems(cat, t, v, n, rev);
      r.Returned? ==> forall k | 0 <= k < n :: ValidateValue(cat, t.inner, v.items[k], rev) == Returned(r.value[k])
  {
    if n > 0 {
      ValidateItemsValues(cat, t, v, n - 1, rev);
      ValidateItemsValuesStep(cat, t, v, n, rev);
    }
  }

  lemma ValidateItemsValuesStep(cat: Catalog, t: TypeExpr, v: PyValue, n: nat, rev: Revision)
    requires t.ListOf? && v.PList? && 0 < n <= |v.items|
    requires var r := ValidateItems(cat, t, v, n - 1, rev);
      r.Returned? ==> forall k | 0 <= k < n - 1 :: ValidateValue(cat, t.inner, v.items[k], rev) == Returned(r.value[k])
    ensures var r := ValidateItems(cat, t, v, n, rev);
      r.Returned? ==> forall k | 0 <= k < n :: ValidateValue(cat, t.inner, v.items[k], rev) == Returned(r.value[k])
  {
    var r := ValidateItems(cat, t, v, n, rev);
    if r.Returned? {
      ValidateItemsLast(cat, t, v, n, rev);
      var init := ValidateItems(cat, t, v, n - 1, rev).value;
      assert forall k | 0 <= k < n - 1 :: r.value[k] == init[k];
    }
  }

  /** One item more of `ValidateItems`. */
  lemma ValidateItemsLast(cat: Catalog, t: TypeExpr, v: PyValue, n: nat, rev: Revision)
    requires t.ListOf? && v.PList? && 0 < n <= |v.items|
    requires ValidateItems(cat, t, v, n, rev).Returned?
    ensures var init := ValidateItems(cat, t, v, n - 1, rev);
      var last := ValidateValue(cat, t.inner, v.items[n - 1], rev);
      && init.Returned? && last.Returned?
      && ValidateItems(cat, t, v, n, rev).value == init.value + [last.value]
  {
  }

  /** A list is coerced to `List[t]` without raising exactly when no item
      raises while validating against `t`. */
  lemma ListCoerceReturns(cat: Catalog, t: TypeExpr, items: seq<PyValue>, rev: Revision)
    ensures CoerceList(cat, ListOf(t), PList(items), rev).Returned? <==>
      forall k | 0 <= k < |items| :: ValidateValue(cat, t, items[k], rev).Returned?
  {
    ValidateItemsReturns(cat, ListOf(t), PList(items), |items|, rev);
  }

  /** The items of a list, validated against `t` in order. */
  lemma ListItemsValidated(cat: Catalog, t: TypeExpr, items: seq<PyValue>, rev: Revision)
    requires ValidateItems(cat, ListOf(t), PList(items), |items|, rev).Returned?
    ensures var rs := ValidateItems(cat, ListOf(t), PList(items), |items|, rev).value;
      |rs| == |items| && forall k | 0 <= k < |items| :: ValidateValue(cat, t, items[k], rev) == Returned(rs[k])
  {
    ValidateItemsValues(cat, ListOf(t), PList(items), |items|, rev);
  }

  /** A list coerced without raising is accepted exactly when every item is. */
  lemma ListCoerceOk(cat: Catalog, t: TypeExpr, items: seq<PyValue>, rev: Revision)
    requires forall k | 0 <= k < |items| :: ValidateValue(cat, t, items[k], rev).Returned?
    ensures CoerceList(cat, ListOf(t), PList(items), rev).Returned? && CoerceList(cat, ListOf(t), PList(items), rev).value.Ok? <==>
      forall k | 0 <= k < |items| :: ValidateValue(cat, t, items[k], rev).value.Ok?
  {
    ValidateItemsReturns(cat, ListOf(t), PList(items), |items|, rev);
    ListItemsValidated(cat, t, items, rev);
  }

  /** An accepted list holds the validated items, in order. */
  lemma ListCoerceItems(cat: Catalog, t: TypeExpr, items: seq<PyValue>, rev: Revision)
    requires CoerceList(cat, ListOf(t), PList(items), rev).Returned?
    requires CoerceList(cat, ListOf(t), PList(items), rev).value.Ok?
    ensures var w := CoerceList(cat, ListOf(t), PList(items), rev).value.value;
      && w == ListW(ListOf(t), w.items)
      && |w.items| == |items|
      && forall k | 0 <= k < |items| :: ValidateValue(cat, t, items[k], rev) == Returned(Ok(w.items[k]))
  {
    ListItemsValidated(cat, t, items, rev);
  }

  /** No name among the first `n` given is unknown to the schema. */
  predicate DefinedUpTo(schema: seq<ArgDef>, given: seq<(string, PyValue)>, n: nat)
    requires n <= |given|
  {
    forall j | 0 <= j < n :: DefinesArg(schema, given[j].0)
  }

  /** One given value more of `CoercedArgs`. */
  lemma CoercedArgsLast(cat: Catalog, schema: seq<ArgDef>, given: seq<(string, PyValue)>, n: nat, rev: Revision)
    requires 0 < n <= |given|
    requires CoercedArgs(cat, schema, given, n, rev).Returned?
    ensures var init := CoercedArgs(cat, schema, given, n - 1, rev);
      && init.Returned?
      && (!DefinesArg(schema, given[n - 1].0) ==> CoercedArgs(cat, schema, given, n, rev).value == init.value)
    ensures DefinesArg(schema, given[n - 1].0) ==>
      var last := ValidateValue(cat, ArgType(schema, given[n - 1].0), given[n - 1].1, rev);
      && last.Returned?
      && CoercedArgs(cat, schema, given, n, rev).value == CoercedArgs(cat, schema, given, n - 1, rev).value + [(given[n - 1].0, last.value)]
  {
  }

  /** `CoercedArgs` raises exactly when the validation of one of the first
      `n` given values of defined arguments raises. */
  lemma {:induction false} CoercedArgsReturns(cat: Catalog, schema: seq<ArgDef>, given: seq<(string, PyValue)>, n: nat, rev: Revision)
    requires n <= |given|
    ensures CoercedArgs(cat, schema, given, n, rev).Returned? <==> forall j | 0 <= j < n && DefinesArg(schema, given[j].0) ::
      ValidateValue(cat, ArgType(schema, given[j].0), given[j].1, rev).Returned?
  {
    if n > 0 {
      CoercedArgsReturns(cat, schema, given, n - 1, rev);
      CoercedArgsReturnsStep(cat, schema, given, n, rev);
    }
  }

  lemma CoercedArgsReturnsStep(cat: Catalog, schema: seq<ArgDef>, given: seq<(string, PyValue)>, n: nat, rev: Revision)
    requires 0 < n <= |given|
    requires CoercedArgs(cat, schema, given, n - 1, rev).Returned? <==> forall j | 0 <= j < n - 1 && DefinesArg(schema, given[j].0) ::
      ValidateValue(cat, ArgType(schema, given[j].0), given[j].1, rev).Returned?
    ensures CoercedArgs(cat, schema, given, n, rev).Returned? <==> forall j | 0 <= j < n && DefinesArg(schema, given[j].0) ::
      ValidateValue(cat, ArgType(schema, given[j].0), given[j].1, rev).Returned?
  {
  }

  /** With the first `n` names defined, `CoercedArgs` holds each of the
      first `n` given values validated, under its name, in order. */
  lemma {:induction false} CoercedArgsEntries(cat: Catalog, schema: seq<ArgDef>, given: seq<(string, PyValue)>, n: nat, rev: Revision)
    requires n <= |given|
    ensures var r := CoercedArgs(cat, schema, given, n, rev);
      r.Returned? && DefinedUpTo(schema, given, n) ==>
      |r.value| == n && forall j | 0 <= j < n :: r.value[j].0 == given[j].0 && ValidateValue(cat, ArgType(schema, given[j].0), given[j].1, rev) == Returned(r.value[j].1)
  {
    if n > 0 {
      CoercedArgsEntries(cat, schema, given, n - 1, rev);
      CoercedArgsEntriesStep(cat, schema, given, n, rev);
    }
  }
  lemma CoercedArgsEntriesStep(cat: Catalog, schema: seq<ArgDef>, given: seq<(string, PyValue)>, n: nat, rev: Revision)
    requires 0 < n <= |given|
    requires var r := CoercedArgs(cat, schema, given, n - 1, rev);
      r.Returned? && DefinedUpTo(schema, given, n - 1) ==>
      |r.value| == n - 1 && forall j | 0 <= j < n - 1 :: r.value[j].0 == given[j].0 && ValidateValue(cat, ArgType(schema, given[j].0), given[j].1, rev) == Returned(r.value[j].1)
    ensures var r := CoercedArgs(cat, schema, given, n, rev);
      r.Returned? && DefinedUpTo(schema, given, n) ==>
      |r.value| == n && forall j | 0 <= j < n :: r.value[j].0 == given[j].0 && ValidateValue(cat, ArgType(schema, given[j].0), given[j].1, rev) == Returned(r.value[j].1)
  {
    var r := CoercedArgs(cat, schema, given, n, rev);
    if r.Returned? && DefinedUpTo(schema, given, n) {
      CoercedArgsLast(cat, schema, given, n, rev);
      var init := CoercedArgs(cat, schema, given, n - 1, rev).value;
      assert forall j | 0 <= j < n - 1 :: r.value[j] == init[j];
    }
  }

  /** With every name defined, `CoercedArgs` holds each given value
      validated, under its name, in order. */
  lemma CoercedArgsValues(cat: Catalog, schema: seq<ArgDef>, given: seq<(string, PyValue)>, rev: Revision)
    requires DefinedUpTo(schema, given, |given|)
    requires CoercedArgs(cat, schema, given, |given|, rev).Returned?
    ensures var c := CoercedArgs(cat, schema, given, |given|, rev).value;
      |c| == |given| && forall j | 0 <= j < |given| ::
        c[j].0 == given[j].0 && ValidateValue(cat, ArgType(schema, given[j].0), given[j].1, rev) == Returned(c[j].1)
  {
    CoercedArgsEntries(cat, schema, given, |given|, rev);
  }

  /** `CoercedArgs` raises what the validation of one of the first `n`
      given values of defined arguments raises. */
  lemma {:induction false} CoercedArgsRaises(cat: Catalog, schema: seq<ArgDef>, given: seq<(string, PyValue)>, n: nat, rev: Revision)
    requires n <= |given|
    ensures var r := CoercedArgs(cat, schema, given, n, rev);
      r.Raised? ==> exists j | 0 <= j < n ::
        DefinesArg(schema, given[j].0) && ValidateValue(cat, ArgType(schema, given[j].0), given[j].1, rev) == Raised(r.exc)
  {
    if n > 0 {
      CoercedArgsRaises(cat, schema, given, n - 1, rev);
      CoercedArgsRaisesStep(cat, schema, given, n, rev);
    }
  }

  lemma CoercedArgsRaisesStep(cat: Catalog, schema: seq<ArgDef>, given: seq<(string, PyValue)>, n: nat, rev: Revision)
    requires 0 < n <= |given|
    requires var r := CoercedArgs(cat, schema, given, n - 1, rev);
      r.Raised? ==> exists j | 0 <= j < n - 1 ::
        DefinesArg(schema, given[j].0) && ValidateValue(cat, ArgType(schema, given[j].0), given[j].1, rev) == Raised(r.exc)
    ensures var r := CoercedArgs(cat, schema, given, n, rev);
      r.Raised? ==> exists j | 0 <= j < n ::
        DefinesArg(schema, given[j].0) && ValidateValue(cat, ArgType(schema, given[j].0), given[j].1, rev) == Raised(r.exc)
  {
  }

  /** The outcome of `validate_args` once every value has been validated:
      the messages, if any, or the validated values. */
  lemma ValidateArgsUnfold(cat: Catalog, schema: seq<ArgDef>, given: seq<(string, PyValue)>, rev: Revision)
    requires CoercedArgs(cat, schema, given, |given|, rev).Returned?
    ensures var fields := Fields(CoercedArgs(cat, schema, given, |given|, rev).value);
      var n := |UnknownMessages(schema, given)| + |MissingMessages(schema, given)| + (if fields.Err? then 1 else 0);
      ValidateArgs(cat, schema, given, rev) == Returned(if n > 0 then Err(ValidateArgs(cat, schema, given, rev).value.error) else Ok(fields.value))
  {
    var fields := Fields(CoercedArgs(cat, schema, given, |given|, rev).value);
    var um := UnknownMessages(schema, given) + MissingMessages(schema, given);
    var sorted := Sort(um);
    assert |sorted| == |um| by {
      assert |multiset(sorted)| == |multiset(um)|;
    }
  }

  /** `validate_args` succeeds when no name is unknown, no required argument
      is missing and every value validates. */
  lemma ValidateArgsAccepts(cat: Catalog, schema: seq<ArgDef>, given: seq<(string, PyValue)>, rev: Revision)
    requires ArgsCoerce(cat, schema, given, rev)
    ensures ValidateArgs(cat, schema, given, rev).Returned?
    ensures ValidateArgs(cat, schema, given, rev).value.Ok?
  {
    CoercedArgsReturns(cat, schema, given, |given|, rev);
    var c := CoercedArgs(cat, schema, given, |given|, rev).value;
    CoercedArgsValues(cat, schema, given, rev);
    assert forall j | 0 <= j < |c| :: c[j].1.Ok?;
    assert Fields(c).Ok?;
    ValidateArgsUnfold(cat, schema, given, rev);
  }

  /** `validate_args` fails, or raises, when a name is unknown, a required
      argument is missing or a value does not validate. */
  lemma ValidateArgsRejects(cat: Catalog, schema: seq<ArgDef>, given: seq<(string, PyValue)>, rev: Revision)
    requires !ArgsCoerce(cat, schema, given, rev)
    ensures var r := ValidateArgs(cat, schema, given, rev); r.Returned? ==> r.value.Err?
  {
    var c := CoercedArgs(cat, schema, given, |given|, rev);
    if c.Returned? {
      ValidateArgsUnfold(cat, schema, given, rev);
      if |UnknownMessages(schema, given)| == 0 && |MissingMessages(schema, given)| == 0 {
        CoercedArgsReturns(cat, schema, given, |given|, rev);
        CoercedArgsValues(cat, schema, given, rev);
        var j :| 0 <= j < |given| && !(var x := ValidateValue(cat, ArgType(schema, given[j].0), given[j].1, rev); x.Returned? && x.value.Ok?);
        assert c.value[j].1.Err?;
      }
    }
  }

  /** On success, `validate_args` gives the validated values under the
      names given, in order. */
  lemma ValidateArgsValues(cat: Catalog, schema: seq<ArgDef>, given: seq<(string, PyValue)>, rev: Revision)
    ensures var r := ValidateArgs(cat, schema, given, rev);
      r.Returned? && r.value.Ok? ==>
        && |r.value.value| == |given|
        && forall j | 0 <= j < |given| ::
          r.value.value[j].0 == given[j].0
          && ValidateValue(cat, ArgType(schema, given[j].0), given[j].1, rev) == Returned(Ok(r.value.value[j].1))
  {
    var c := CoercedArgs(cat, schema, given, |given|, rev);
    if c.Returned? {
      ValidateArgsUnfold(cat, schema, given, rev);
      if |UnknownMessages(schema, given)| == 0 {
        CoercedArgsValues(cat, schema, given, rev);
      }
    }
  }

  /** Only the validation of a given value can make `validate_args` raise. */
  lemma ValidateArgsRaises(cat: Catalog, schema: seq<ArgDef>, given: seq<(string, PyValue)>, rev: Revision)
    ensures var r := ValidateArgs(cat, schema, given, rev);
      r.Raised? ==> exists j | 0 <= j < |given| ::
        DefinesArg(schema, given[j].0) && ValidateValue(cat, ArgType(schema, given[j].0), given[j].1, rev) == Raised(r.exc)
  {
    CoercedArgsRaises(cat, schema, given, |given|, rev);
  }

  /** The values `validate_args` accepts construct an instance of the input
      class without raising, so `coerce` returns the instance. */
  lemma ValidatedArgsConstruct(cat: Catalog, n: string, fields: seq<ArgDef>, given: seq<(string, PyValue)>, rev: Revision)
    requires ValidateArgs(cat, fields, given, rev).Returned? && ValidateArgs(cat, fields, given, rev).value.Ok?
    ensures var vs := ValidateArgs(cat, fields, given, rev).value.value;
      InputObjectInit(n, fields, vs) == Returned(InputObjectW(n, vs))
  {
    var vs := ValidateArgs(cat, fields, given, rev).value.value;
    ValidateArgsUnfold(cat, fields, given, rev);
    ValidateArgsValues(cat, fields, given, rev);
    assert |UnknownMessages(fields, given)| == 0 && |MissingMessages(fields, given)| == 0;
    forall i | 0 <= i < |fields| && !IsNullable(fields[i].typ)
      ensures HasKey(vs, fields[i].name)
    {
      var j :| 0 <= j < |given| && given[j].0 == fields[i].name;
      assert vs[j].0 == fields[i].name;
    }
  }
}
