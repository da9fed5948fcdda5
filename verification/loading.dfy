/** Loading a JSON response into instances of the schema's classes:
    `load_field` and `load` of src/quiz/types.py and of quiz/types.py. The
    two differ only at the leaves: src/quiz/types.py knows `GenericScalar`,
    quiz/types.py knows `AnyScalar` and the value wrappers `Int`, `Float`,
    `Boolean`, `String` and `ID`. */
module Loading {
  import opened Exceptions
  import opened Results
  import opened Catalogs
  import opened Values
  import opened Text
  import opened Dicts
  import opened Selections
  import opened Membership
  import opened Coercion
  import opened Floats

  /** Whose `load_field` is meant. */
  datatype Loader = SrcTypes | Types(rev: Revision)

  /** `cls.__gql_load__(data)` of the user scalar class named by the first
      argument: user code, so a parameter of the model. */
  type ScalarHook = (string, PyValue) -> Raising<PyValue>

  /** `field.alias or field.name`: an empty alias counts as none. */
  function ResponseKey(s: Selection): string
    requires s.Field?
  {
    if s.alias.Some? && |s.alias.value| > 0 then s.alias.value else s.name
  }

  /** The response keys of the fields of `items`. */
  function ResponseKeys(items: seq<Selection>): (ks: seq<string>)
    requires forall k | 0 <= k < |items| :: items[k].Field?
    ensures |ks| == |items| && forall k | 0 <= k < |items| :: ks[k] == ResponseKey(items[k])
  {
    if |items| == 0 then [] else [ResponseKey(items[0])] + ResponseKeys(items[1..])
  }

  /** `float(data)`. A float is itself; an integer or a boolean converts,
      unless the integer is beyond the double range; a string converts when
      its text is a float literal. The repr of a converted string, and of an
      integer too large to be a double exactly, is not computed: the model
      keeps the stripped text, and the integer's digits with `.0`. */
  function FloatOf(v: PyValue): (r: Raising<PyValue>)
    ensures r.Returned? <==>
      || v.PFloat? || v.PBool?
      || (v.PInt? && -FloatOverflow < v.i < FloatOverflow)
      || ((v.PStr? || v.PID?) && FloatLiteral(v.s))
    ensures r.Returned? ==> r.value.PFloat?
    ensures v.PFloat? ==> r == Returned(v)
    ensures v.PInt? && -ExactIntBound <= v.i <= ExactIntBound ==> r == Returned(PFloat(IntToString(v.i) + ".0"))
    ensures r == Raised(OverflowError) <==> v.PInt? && !(-FloatOverflow < v.i < FloatOverflow)
    ensures r == Raised(ValueError) <==> (v.PStr? || v.PID?) && !FloatLiteral(v.s)
    ensures r == Raised(TypeError) <==> !(v.PFloat? || v.PBool? || v.PInt? || v.PStr? || v.PID?)
  {
    match v
    case PFloat(_) => Returned(v)
    case PInt(i) =>
      if -FloatOverflow < i < FloatOverflow then Returned(PFloat(IntToString(i) + ".0")) else Raised(OverflowError)
    case PBool(b) => Returned(PFloat(if b then "1.0" else "0.0"))
    case PStr(s) => if FloatLiteral(s) then Returned(PFloat(Strip(s))) else Raised(ValueError)
    case PID(s) => if FloatLiteral(s) then Returned(PFloat(Strip(s))) else Raised(ValueError)
    case _ => Raised(TypeError)
  }

  /** The text of every integer loads as a float, even where the integer
      itself overflows: a response that carries a large number as a string
      still loads. */
  lemma FloatOfIntText(i: int)
    ensures FloatOf(PStr(IntToString(i))).Returned?
    ensures FloatOf(PInt(i)).Returned? <==> -FloatOverflow < i < FloatOverflow
  {
    IntTextIsFloatLiteral(i);
  }

  /** `load_field` at a scalar class named `n`. */
  function LoadScalar(cat: Catalog, hook: ScalarHook, ld: Loader, n: string, cls: ScalarClass, v: PyValue): (r: Raising<PyValue>)
    ensures cls.Primitive? ==> r == (if IsPrimInstance(v, cls.kind) then Returned(v) else Raised(AssertionError))
    ensures cls.CustomScalarClass? ==> r == hook(n, v)
  {
    match cls
    case Primitive(k) => if IsPrimInstance(v, k) then Returned(v) else Raised(AssertionError)
    case GenericScalarClass => if IsPrimitive(v) then Returned(v) else Raised(AssertionError)
    case CustomScalarClass => hook(n, v)
    case AnyScalarClass =>
      if ld == Types(Corrected) || InstanceOfClass(cat, v, n) then Returned(v) else Raised(AssertionError)
    case IntScalar => if ld == Types(Corrected) then Returned(v) else Raised(NotImplementedError)
    case BooleanScalar => if ld == Types(Corrected) then Returned(v) else Raised(NotImplementedError)
    case StringLike => if ld == Types(Corrected) then Returned(v) else Raised(NotImplementedError)
    case FloatScalar => if ld == Types(Corrected) then FloatOf(v) else Raised(NotImplementedError)
  }

  /** `load_field` at an enum: the member whose value the (truthy) data is. */
  function LoadEnum(n: string, members: seq<(string, string)>, v: PyValue): (r: Raising<PyValue>)
    ensures r.Returned? <==> Truthy(v) && (v.PStr? || v.PID?) && exists i | 0 <= i < |members| :: members[i].1 == v.s
    ensures r.Returned? ==> r.value.PEnumMember? && r.value.cls == n && (r.value.member, r.value.value) in members && r.value.value == v.s
  {
    if !Truthy(v) then Raised(AssertionError)
    else if !(v.PStr? || v.PID?) then Raised(ValueError)
    else match MemberWithValue(members, v.s)
      case Some(m) => Returned(PEnumMember(n, m, v.s))
      case None => Raised(ValueError)
  }

  /** `load_field(t, f, v)`: the JSON value `v` of field `f`, whose type is `t`. */
  function LoadField(cat: Catalog, hook: ScalarHook, ld: Loader, t: TypeExpr, f: Selection, v: PyValue): (r: Raising<PyValue>)
    requires f.Field?
    ensures t.NullableOf? && v.PNone? ==> r == Returned(PNone)
    ensures t.NullableOf? && !v.PNone? ==> r == LoadField(cat, hook, ld, t.inner, f, v)
    ensures t.ListOf? && !v.PList? ==> r == Raised(AssertionError)
    decreases f, 0, Depth(t), 1, 0
  {
    match t
    case NullableOf(inner) => if v.PNone? then Returned(PNone) else LoadField(cat, hook, ld, inner, f, v)
    case ListOf(inner) =>
      if !v.PList? then Raised(AssertionError)
      else
        var items :- LoadList(cat, hook, ld, t, f, v.items, 0);
        Returned(PList(items))
    case Named(n) =>
      if n !in cat then Raised(NotImplementedError)
      else match cat[n]
        case ObjectDef(_, _) => if v.PDict? then Load(cat, hook, ld, n, f.selectionSet, v.entries) else Raised(AssertionError)
        case InterfaceDef(_) => if v.PDict? then Load(cat, hook, ld, n, f.selectionSet, v.entries) else Raised(AssertionError)
        case ScalarDef(cls) => LoadScalar(cat, hook, ld, n, cls, v)
        case EnumDef(members) => LoadEnum(n, members, v)
        case _ => Raised(NotImplementedError)
  }

  /** The items of a JSON list from index `j` on, each loaded as the list's
      element type. */
  function LoadList(cat: Catalog, hook: ScalarHook, ld: Loader, t: TypeExpr, f: Selection, items: seq<PyValue>, j: nat): (r: Raising<seq<PyValue>>)
    requires t.ListOf? && f.Field? && j <= |items|
    ensures r.Returned? ==> |r.value| == |items| - j
    decreases f, 0, Depth(t), 0, |items| - j
  {
    if j == |items| then Returned([])
    else
      var first :- LoadField(cat, hook, ld, t.inner, f, items[j]);
      var rest :- LoadList(cat, hook, ld, t, f, items, j + 1);
      Returned([first] + rest)
  }

  /** `load(cls, ss, response)`: an instance of `cls` holding, under each
      field's response key, the loaded value of that key in the response. */
  function Load(cat: Catalog, hook: ScalarHook, ld: Loader, cls: string, ss: SelectionSet, response: seq<(string, PyValue)>): (r: Raising<PyValue>)
    ensures r.Returned? ==> r.value.PObject? && r.value.cls == cls
    decreases ss, 0, 0, 1, 0
  {
    var pairs :- LoadEach(Entry(cat, hook, ld, cls, ss, response), ss.items, 0);
    Returned(PObject(cls, FromPairs(pairs)))
  }

  /** The value of one entry of the dictionary comprehension in `load`, for
      a field of `ss`. */
  function Entry(cat: Catalog, hook: ScalarHook, ld: Loader, cls: string, ss: SelectionSet, response: seq<(string, PyValue)>): Selection --> Raising<PyValue>
    decreases ss, 0, 0, 0, 0
  {
    (s: Selection) requires s in ss.items && s.Field? => LoadSelection(cat, hook, ld, cls, s, response)
  }

  /** The value of one field in `load`: an undefined field has no definition
      to load against, and a key missing from the response has no value. */
  function LoadSelection(cat: Catalog, hook: ScalarHook, ld: Loader, cls: string, s: Selection, response: seq<(string, PyValue)>): (r: Raising<PyValue>)
    requires s.Field?
    ensures LookupField(cat, cls, s.name).None? ==> r == Raised(AttributeError)
    ensures LookupField(cat, cls, s.name).Some? && Get(response, ResponseKey(s)).None? ==> r == Raised(KeyError)
    decreases s, 1, 0, 0, 0
  {
    match LookupField(cat, cls, s.name)
    case None => Raised(AttributeError)
    case Some(fd) =>
      match Get(response, ResponseKey(s))
      case None => Raised(KeyError)
      case Some(data) => LoadField(cat, hook, ld, fd.typ, s, data)
  }

  /** The pairs of the dictionary comprehension in `load`, from the `i`-th
      selection on, `entry` giving each field's value; an inline fragment
      has no alias. */
  function LoadEach(entry: Selection --> Raising<PyValue>, items: seq<Selection>, i: nat): (r: Raising<seq<(string, PyValue)>>)
    requires i <= |items|
    requires forall k | i <= k < |items| :: items[k].Field? ==> entry.requires(items[k])
    ensures r.Returned? <==> forall k | i <= k < |items| :: items[k].Field? && entry(items[k]).Returned?
    ensures r.Returned? ==> |r.value| == |items| - i
    ensures r.Returned? ==> forall k | 0 <= k < |r.value| ::
      r.value[k].0 == ResponseKey(items[i + k]) && entry(items[i + k]) == Returned(r.value[k].1)
    decreases |items| - i
  {
    if i == |items| then Returned([])
    else
      var s := items[i];
      if s.InlineFragment? then Raised(AttributeError)
      else
        var first :- entry(s);
        var rest :- LoadEach(entry, items, i + 1);
        Returned([(ResponseKey(s), first)] + rest)
  }

  // ---------------------------------------------------------------------
  // Properties

  /** `LoadList` raises exactly when some item from `j` on fails to load. */
  lemma {:induction false} LoadListReturns(cat: Catalog, hook: ScalarHook, ld: Loader, t: TypeExpr, f: Selection, items: seq<PyValue>, j: nat)
    requires t.ListOf? && f.Field? && j <= |items|
    ensures LoadList(cat, hook, ld, t, f, items, j).Returned? <==>
      forall k | j <= k < |items| :: LoadField(cat, hook, ld, t.inner, f, items[k]).Returned?
    decreases |items| - j
  {
    if j < |items| {
      LoadListReturns(cat, hook, ld, t, f, items, j + 1);
    }
  }

  /** `LoadList` holds the load of every item from `j` on, in order. */
  lemma {:induction false} LoadListValues(cat: Catalog, hook: ScalarHook, ld: Loader, t: TypeExpr, f: Selection, items: seq<PyValue>, j: nat)
    requires t.ListOf? && f.Field? && j <= |items|
    requires LoadList(cat, hook, ld, t, f, items, j).Returned?
    ensures forall k | j <= k < |items| ::
      LoadField(cat, hook, ld, t.inner, f, items[k]) == Returned(LoadList(cat, hook, ld, t, f, items, j).value[k - j])
    decreases |items| - j
  {
    if j < |items| {
      var rs := LoadList(cat, hook, ld, t, f, items, j).value;
      var rest := LoadList(cat, hook, ld, t, f, items, j + 1);
      assert rest.Returned? && rs == [LoadField(cat, hook, ld, t.inner, f, items[j]).value] + rest.value;
      LoadListValues(cat, hook, ld, t, f, items, j + 1);
    }
  }

  /** A JSON list loads element-wise: the result has one loaded value per
      item, in order, and loading fails exactly when an item's load fails. */
  lemma ListLoadsElementwise(cat: Catalog, hook: ScalarHook, ld: Loader, t: TypeExpr, f: Selection, items: seq<PyValue>)
    requires f.Field?
    ensures LoadField(cat, hook, ld, ListOf(t), f, PList(items)).Returned? <==>
      forall k | 0 <= k < |items| :: LoadField(cat, hook, ld, t, f, items[k]).Returned?
    ensures var r := LoadField(cat, hook, ld, ListOf(t), f, PList(items));
      r.Returned? ==>
        && r.value.PList? && |r.value.items| == |items|
        && forall k | 0 <= k < |items| :: LoadField(cat, hook, ld, t, f, items[k]) == Returned(r.value.items[k])
  {
    var rs := LoadList(cat, hook, ld, ListOf(t), f, items, 0);
    assert LoadField(cat, hook, ld, ListOf(t), f, PList(items)) == if rs.Returned? then Returned(PList(rs.value)) else Raised(rs.exc);
    LoadListReturns(cat, hook, ld, ListOf(t), f, items, 0);
    if rs.Returned? {
      LoadListValues(cat, hook, ld, ListOf(t), f, items, 0);
      forall k | 0 <= k < |items| ensures LoadField(cat, hook, ld, t, f, items[k]) == Returned(rs.value[k]) {
        assert rs.value[k - 0] == rs.value[k];
      }
    }
  }

  /** The fields `load` gives are the dictionary of the pairs it loads, whose
      keys are the selections' response keys. */
  lemma LoadPairs(cat: Catalog, hook: ScalarHook, ld: Loader, cls: string, ss: SelectionSet, response: seq<(string, PyValue)>)
    requires Load(cat, hook, ld, cls, ss, response).Returned?
    ensures forall k | 0 <= k < |ss.items| :: ss.items[k].Field?
    ensures var pairs := LoadEach(Entry(cat, hook, ld, cls, ss, response), ss.items, 0).value;
      && Load(cat, hook, ld, cls, ss, response).value.fields == FromPairs(pairs)
      && Keys(pairs) == ResponseKeys(ss.items)
  {
    var pairs := LoadEach(Entry(cat, hook, ld, cls, ss, response), ss.items, 0).value;
    assert forall k | 0 <= k < |pairs| :: pairs[k].0 == ResponseKey(ss.items[0 + k]);
  }

  /** The value `load` gives the `k`-th field is what that field loads. */
  lemma EntryLoads(cat: Catalog, hook: ScalarHook, ld: Loader, cls: string, ss: SelectionSet, response: seq<(string, PyValue)>, k: nat)
    requires k < |ss.items|
    requires LoadEach(Entry(cat, hook, ld, cls, ss, response), ss.items, 0).Returned?
    ensures ss.items[k].Field?
    ensures LoadSelection(cat, hook, ld, cls, ss.items[k], response) == Returned(LoadEach(Entry(cat, hook, ld, cls, ss, response), ss.items, 0).value[k].1)
  {
    var entry := Entry(cat, hook, ld, cls, ss, response);
    assert ss.items[0 + k] == ss.items[k];
    assert entry(ss.items[k]) == LoadSelection(cat, hook, ld, cls, ss.items[k], response);
  }

  /** `load` returns exactly when every selection is a field that loads. */
  lemma LoadReturns(cat: Catalog, hook: ScalarHook, ld: Loader, cls: string, ss: SelectionSet, response: seq<(string, PyValue)>)
    ensures Load(cat, hook, ld, cls, ss, response).Returned? <==>
      forall k | 0 <= k < |ss.items| :: ss.items[k].Field? && LoadSelection(cat, hook, ld, cls, ss.items[k], response).Returned?
  {
    var entry := Entry(cat, hook, ld, cls, ss, response);
    forall k | 0 <= k < |ss.items| && ss.items[k].Field?
      ensures entry(ss.items[k]) == LoadSelection(cat, hook, ld, cls, ss.items[k], response)
    {
    }
  }

  /** Under each response key, the instance `load` gives holds the loaded
      value of the last selection with that key: a later entry of the
      dictionary comprehension replaces an earlier one. */
  lemma LoadValues(cat: Catalog, hook: ScalarHook, ld: Loader, cls: string, ss: SelectionSet, response: seq<(string, PyValue)>)
    ensures var r := Load(cat, hook, ld, cls, ss, response);
      r.Returned? ==>
        && (forall k | 0 <= k < |ss.items| :: ss.items[k].Field?)
        && forall k | 0 <= k < |ss.items| && (forall m | k < m < |ss.items| :: ResponseKey(ss.items[m]) != ResponseKey(ss.items[k])) ::
          && Get(r.value.fields, ResponseKey(ss.items[k])).Some?
          && LoadSelection(cat, hook, ld, cls, ss.items[k], response) == Returned(Get(r.value.fields, ResponseKey(ss.items[k])).value)
  {
    if Load(cat, hook, ld, cls, ss, response).Returned? {
      LoadPairs(cat, hook, ld, cls, ss, response);
      forall k | 0 <= k < |ss.items| && (forall m | k < m < |ss.items| :: ResponseKey(ss.items[m]) != ResponseKey(ss.items[k]))
        ensures Get(Load(cat, hook, ld, cls, ss, response).value.fields, ResponseKey(ss.items[k])).Some?
        ensures LoadSelection(cat, hook, ld, cls, ss.items[k], response) == Returned(Get(Load(cat, hook, ld, cls, ss, response).value.fields, ResponseKey(ss.items[k])).value)
      {
        LoadValue(cat, hook, ld, cls, ss, response, k);
      }
    }
  }

  /** The value `load` gives under the response key of the `k`-th field, when
      no later field shares that key, is what that field loads. */
  lemma LoadValue(cat: Catalog, hook: ScalarHook, ld: Loader, cls: string, ss: SelectionSet, response: seq<(string, PyValue)>, k: nat)
    requires Load(cat, hook, ld, cls, ss, response).Returned?
    requires k < |ss.items| && forall m | 0 <= m < |ss.items| :: ss.items[m].Field?
    requires forall m | k < m < |ss.items| :: ResponseKey(ss.items[m]) != ResponseKey(ss.items[k])
    ensures Get(Load(cat, hook, ld, cls, ss, response).value.fields, ResponseKey(ss.items[k])).Some?
    ensures LoadSelection(cat, hook, ld, cls, ss.items[k], response) == Returned(Get(Load(cat, hook, ld, cls, ss, response).value.fields, ResponseKey(ss.items[k])).value)
  {
    LoadPairs(cat, hook, ld, cls, ss, response);
    var pairs := LoadEach(Entry(cat, hook, ld, cls, ss, response), ss.items, 0).value;
    EntryLoads(cat, hook, ld, cls, ss, response, k);
    LastKeyWins(pairs, ss.items, k);
  }

  /** In the dictionary of pairs keyed by the response keys of `items`, the
      key of the `k`-th item, when no later item shares it, holds the `k`-th
      pair's value. */
  lemma LastKeyWins(pairs: seq<(string, PyValue)>, items: seq<Selection>, k: nat)
    requires forall m | 0 <= m < |items| :: items[m].Field?
    requires Keys(pairs) == ResponseKeys(items)
    requires k < |items|
    requires forall m | k < m < |items| :: ResponseKey(items[m]) != ResponseKey(items[k])
    ensures k < |pairs| && Get(FromPairs(pairs), ResponseKey(items[k])) == Some(pairs[k].1)
  {
    assert |Keys(pairs)| == |pairs|;
    assert forall m | 0 <= m < |pairs| :: pairs[m].0 == Keys(pairs)[m] == ResponseKey(items[m]);
    LastForLast(pairs, k);
    FromPairsGet(pairs, pairs[k].0);
  }

  /** `load` gives an instance with one entry per distinct response key, in
      order of first selection. */
  lemma LoadKeyedByResponseKey(cat: Catalog, hook: ScalarHook, ld: Loader, cls: string, ss: SelectionSet, response: seq<(string, PyValue)>)
    ensures var r := Load(cat, hook, ld, cls, ss, response);
      r.Returned? ==>
        && (forall k | 0 <= k < |ss.items| :: ss.items[k].Field?)
        && DistinctKeys(r.value.fields)
        && Keys(r.value.fields) == Dedup(ResponseKeys(ss.items))
  {
    if Load(cat, hook, ld, cls, ss, response).Returned? {
      LoadPairs(cat, hook, ld, cls, ss, response);
      FromPairsSpec(LoadEach(Entry(cat, hook, ld, cls, ss, response), ss.items, 0).value);
    }
  }

  /** With no response key repeated, `load` gives one entry per field. */
  lemma LoadOneEntryPerField(cat: Catalog, hook: ScalarHook, ld: Loader, cls: string, ss: SelectionSet, response: seq<(string, PyValue)>)
    requires forall k | 0 <= k < |ss.items| :: ss.items[k].Field?
    requires DistinctResponseKeys(ss.items)
    ensures var r := Load(cat, hook, ld, cls, ss, response);
      r.Returned? ==> |r.value.fields| == |ss.items|
  {
    if Load(cat, hook, ld, cls, ss, response).Returned? {
      LoadKeyedByResponseKey(cat, hook, ld, cls, ss, response);
      var ks := ResponseKeys(ss.items);
      DedupDistinct(ks);
      assert |Keys(Load(cat, hook, ld, cls, ss, response).value.fields)| == |ks|;
    }
  }

  /** No two fields of `items` share a response key. */
  predicate DistinctResponseKeys(items: seq<Selection>)
    requires forall k | 0 <= k < |items| :: items[k].Field?
  {
    forall a, b | 0 <= a < b < |items| :: ResponseKey(items[a]) != ResponseKey(items[b])
  }

  /** A user scalar's hook is sound when what it loads is an instance of its class. */
  ghost predicate HookSound(cat: Catalog, hook: ScalarHook) {
    forall n, v :: hook(n, v).Returned? ==> InstanceOfClass(cat, hook(n, v).value, n)
  }

  /** In src/quiz/types.py, what `load_field` returns is an instance of the
      field's type, as the metaclasses define membership. */
  lemma {:induction false} SrcLoadFits(cat: Catalog, hook: ScalarHook, t: TypeExpr, f: Selection, v: PyValue)
    requires f.Field? && HookSound(cat, hook)
    ensures var r := LoadField(cat, hook, SrcTypes, t, f, v);
      r.Returned? ==> IsInstance(cat, r.value, t)
    decreases t
  {
    var r := LoadField(cat, hook, SrcTypes, t, f, v);
    if r.Returned? {
      match t
      case NullableOf(inner) =>
        if !v.PNone? {
          SrcLoadFits(cat, hook, inner, f, v);
        }
      case ListOf(inner) =>
        ListLoadsElementwise(cat, hook, SrcTypes, inner, f, v.items);
        forall k | 0 <= k < |r.value.items|
          ensures IsInstance(cat, r.value.items[k], inner)
        {
          SrcLoadFits(cat, hook, inner, f, v.items[k]);
        }
      case Named(n) =>
    }
  }

  // ---------------------------------------------------------------------
  // The wrapper classes of quiz/types.py

  /** As written, quiz/types.py cannot load a field of the wrapper classes
      `Int`, `Float`, `Boolean`, `String` or `ID`, nor a JSON value of a
      generic scalar: no branch of `load_field` calls their
      `__gql_load__`, and no JSON value is an instance of an `AnyScalar`
      class. */
  lemma WrappersUnloadable(cat: Catalog, hook: ScalarHook, n: string, f: Selection, v: PyValue)
    requires f.Field? && n in cat && cat[n].ScalarDef?
    requires !v.AnyScalarW?
    ensures cat[n].cls in {IntScalar, FloatScalar, BooleanScalar, StringLike} ==>
      LoadField(cat, hook, Types(AsWritten), Named(n), f, v) == Raised(NotImplementedError)
    ensures cat[n].cls == AnyScalarClass ==>
      LoadField(cat, hook, Types(AsWritten), Named(n), f, v) == Raised(AssertionError)
  {
  }

  /** With their `__gql_load__` used, the wrapper classes and generic
      scalars load the JSON value as it is (`Float` converts an integer). */
  lemma WrappersLoadCorrected(cat: Catalog, hook: ScalarHook, n: string, f: Selection, v: PyValue)
    requires f.Field? && n in cat && cat[n].ScalarDef?
    ensures cat[n].cls in {IntScalar, BooleanScalar, StringLike, AnyScalarClass} ==>
      LoadField(cat, hook, Types(Corrected), Named(n), f, v) == Returned(v)
    ensures cat[n].cls == FloatScalar ==> LoadField(cat, hook, Types(Corrected), Named(n), f, v) == FloatOf(v)
    ensures cat[n].cls == FloatScalar && v.PFloat? ==>
      LoadField(cat, hook, Types(Corrected), Named(n), f, v) == Returned(v)
  {
  }
}
