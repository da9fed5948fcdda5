/** Argument values in quiz/types.py: `validate_value`, the `coerce` class
    methods of the input classes, and `validate_args`. Validation either
    returns a `Result` (the value, or a message saying why not) or raises,
    which it does for classes without a `coerce` method and for an input
    object whose fields do not validate. */
module Coercion {
  import opened Exceptions
  import opened Results
  import opened Catalogs
  import opened Values
  import opened Text
  import opened Dicts
  import opened Membership
  import opened Ordering

  /** `MIN_INT = -2 << 30` and `MAX_INT = (2 << 30) - 1`. */
  const MinInt: int := -0x8000_0000
  const MaxInt: int := 0x7FFF_FFFF

  /** `_indent`: `textwrap.indent` with two spaces. */
  function IndentMsg(m: string): string {
    Indent(m, "  ")
  }

  /** `isinstance(v, t)` for the classes of quiz/types.py. `Nullable[...]`
      and `List[...]` are ordinary classes here, with no `__instancecheck__`:
      only the values they made are their instances. */
  predicate IsInstanceOf(cat: Catalog, v: PyValue, t: TypeExpr) {
    match t
    case Named(n) => InstanceOfClass(cat, v, n)
    case NullableOf(_) => v.NullableW? && v.typ == t
    case ListOf(_) => v.ListW? && v.typ == t
  }

  // ---------------------------------------------------------------------
  // The scalar classes

  /** `isinstance(v, int)`: a `bool` is an `int` too. */
  predicate IsInt(v: PyValue) {
    v.PInt? || v.PBool?
  }

  /** `int(v)`. */
  function IntOf(v: PyValue): int
    requires IsInt(v)
  {
    if v.PInt? then v.i else if v.b then 1 else 0
  }

  /** The range `Int.coerce` admits: as written, strictly between the two
      bounds; corrected, the signed 32-bit integers (section 3.5.1 of the
      GraphQL specification, June 2018). */
  predicate InIntRange(i: int, rev: Revision) {
    if rev == AsWritten then MinInt < i < MaxInt else MinInt <= i <= MaxInt
  }

  /** `Int.coerce`. */
  function CoerceInt(v: PyValue, rev: Revision): (r: Result<PyValue, string>)
    ensures !IsInt(v) ==> r == Err("Invalid type, must be int.")
    ensures IsInt(v) && rev == Corrected ==> (r.Ok? <==> -0x8000_0000 <= IntOf(v) < 0x8000_0000)
    ensures IsInt(v) && rev == AsWritten ==> (r.Ok? <==> -0x8000_0000 < IntOf(v) < 0x7FFF_FFFF)
    ensures IsInt(v) && r.Err? ==> r.error == "Integer beyond 32-bit limit."
    ensures r.Ok? ==> r.value == IntW(IntOf(v))
  {
    if !IsInt(v) then Err("Invalid type, must be int.")
    else if !InIntRange(IntOf(v), rev) then Err("Integer beyond 32-bit limit.")
    else Ok(IntW(IntOf(v)))
  }

  /** The two 32-bit bounds themselves are rejected by the code as written,
      and accepted by the correction. */
  lemma IntBoundsRejected()
    ensures CoerceInt(PInt(-0x8000_0000), AsWritten).Err?
    ensures CoerceInt(PInt(0x7FFF_FFFF), AsWritten).Err?
    ensures CoerceInt(PInt(-0x8000_0000), Corrected) == Ok(IntW(-0x8000_0000))
    ensures CoerceInt(PInt(0x7FFF_FFFF), Corrected) == Ok(IntW(0x7FFF_FFFF))
  {
  }

  /** `Float.coerce`: a `float` other than NaN or an infinity, or an `int`
      converted with `float()`. */
  function CoerceFloat(v: PyValue): (r: Result<PyValue, string>)
    ensures r.Ok? <==> (v.PFloat? && v.repr !in {"nan", "inf", "-inf"}) || IsInt(v)
    ensures r.Ok? ==> r.value.FloatW?
    ensures v.PFloat? && r.Ok? ==> r.value == FloatW(v.repr)
  {
    if !(v.PFloat? || IsInt(v)) then Err("Can only coerce float or int, not " + TypeName(v) + ".")
    else if v.PFloat? && v.repr in {"nan", "inf", "-inf"} then Err("Value cannot be infinite or NaN.")
    else if v.PFloat? then Ok(FloatW(v.repr))
    else Ok(FloatW(IntToString(IntOf(v)) + ".0"))
  }

  /** `Boolean.coerce`. */
  function CoerceBoolean(v: PyValue): (r: Result<PyValue, string>)
    ensures r.Ok? <==> v.PBool?
    ensures r.Ok? ==> r.value == BooleanW(v.b)
  {
    if v.PBool? then Ok(BooleanW(v.b)) else Err("Invalid type, must be bool.")
  }

  /** `StringLike.coerce` for the class named `n` (`String` or `ID`). */
  function CoerceString(n: string, v: PyValue): (r: Result<PyValue, string>)
    ensures r.Ok? <==> v.PStr? || v.PID?
    ensures r.Ok? ==> r.value == StringW(n, v.s)
  {
    if v.PStr? || v.PID? then Ok(StringW(n, v.s)) else Err("Invalid type, must be str.")
  }

  /** The name of the first member whose value is `s`. */
  function MemberWithValue(members: seq<(string, string)>, s: string): (r: Option<string>)
    ensures r.Some? ==> (r.value, s) in members
    ensures r.None? <==> forall i | 0 <= i < |members| :: members[i].1 != s
  {
    if |members| == 0 then None
    else if members[0].1 == s then Some(members[0].0)
    else MemberWithValue(members[1..], s)
  }

  /** `Enum.coerce` for the enum named `n`: a string naming the value of a member. */
  function CoerceEnum(n: string, members: seq<(string, string)>, v: PyValue): (r: Result<PyValue, string>)
    ensures r.Ok? <==> (v.PStr? || v.PID?) && exists i | 0 <= i < |members| :: members[i].1 == v.s
    ensures r.Ok? ==> r.value.PEnumMember? && r.value.cls == n && r.value.value == v.s && (r.value.member, v.s) in members
  {
    if v.PStr? || v.PID? then
      match MemberWithValue(members, v.s)
      case Some(member) => Ok(PEnumMember(n, member, v.s))
      case None => Err("'" + v.s + "' is not a valid enum option.")
    else Err("Invalid type " + TypeRepr(v) + ".")
  }

  /** An instance of a `Scalar` subclass: the generic scalars and user scalars. */
  predicate IsScalarInstance(v: PyValue) {
    v.AnyScalarW? || v.PScalar?
  }

  /** `AnyScalar.coerce` for the class named `n`: a scalar or `None` is
      wrapped as it is; a value whose exact type is `float`, `int`, `bool`
      or `str` is coerced by `Float`, `Int`, `Boolean` or `String` and then
      wrapped; anything else (an `ID`, whose exact type is not `str`,
      included) is not a scalar. */
  function CoerceAnyScalar(n: string, v: PyValue, rev: Revision): (r: Result<PyValue, string>)
    ensures r.Ok? ==> r.value.AnyScalarW? && r.value.cls == n
    ensures IsScalarInstance(v) || v.PNone? ==> r == Ok(AnyScalarW(n, v))
    ensures v.PStr? ==> r == Ok(AnyScalarW(n, StringW("String", v.s)))
    ensures v.PBool? ==> r == Ok(AnyScalarW(n, BooleanW(v.b)))
    ensures v.PID? || v.PList? || v.PDict? ==> r == Err("Not a valid scalar.")
  {
    if IsScalarInstance(v) || v.PNone? then Ok(AnyScalarW(n, v))
    else
      var inner := match v
        case PFloat(_) => CoerceFloat(v)
        case PInt(_) => CoerceInt(v, rev)
        case PBool(_) => CoerceBoolean(v)
        case PStr(_) => CoerceString("String", v)
        case _ => Err("Not a valid scalar.");
      match inner
      case Ok(x) => Ok(AnyScalarW(n, x))
      case Err(m) => Err(m)
  }

  // ---------------------------------------------------------------------
  // Values of any input type

  /** The message for the failing items of a list. */
  function ListMessage(errs: seq<(nat, string)>): string {
    "Invalid items in list:\n" + IndentMsg(Join("\n", IndexMessages(errs)))
  }

  function IndexMessages(errs: seq<(nat, string)>): (ms: seq<string>)
    ensures |ms| == |errs|
  {
    if |errs| == 0 then []
    else ["at index " + IntToString(errs[0].0) + ":\n" + IndentMsg(errs[0].1)] + IndexMessages(errs[1..])
  }

  /** `validate_value(t, v)`: `v` itself when it already is an instance of
      `t`, otherwise `t.coerce(v)` with its message prefixed. */
  function ValidateValue(cat: Catalog, t: TypeExpr, v: PyValue, rev: Revision): (r: Raising<Result<PyValue, string>>)
    ensures IsInstanceOf(cat, v, t) ==> r == Returned(Ok(v))
    ensures r.Returned? && r.value.Ok? ==> IsInstanceOf(cat, r.value.value, t)
    decreases v, Depth(t), 2, 0, 0
  {
    if IsInstanceOf(cat, v, t) then Returned(Ok(v))
    else
      var c :- Coerce(cat, t, v, rev);
      Returned(match c
        case Ok(x) => Ok(x)
        case Err(m) => Err("Could not coerce to " + WrapperName(t) + ":\n" + IndentMsg(m)))
  }

  /** `t.coerce(v)`. A class without a `coerce` method (an object, an
      interface, a union, or a Python class) raises `AttributeError`. */
  function Coerce(cat: Catalog, t: TypeExpr, v: PyValue, rev: Revision): (r: Raising<Result<PyValue, string>>)
    ensures r.Returned? && r.value.Ok? ==> IsInstanceOf(cat, r.value.value, t)
    ensures t.NullableOf? && v.PNone? ==> r == Returned(Ok(NullableW(t, PNone)))
    ensures t.ListOf? && !v.PList? ==> r == Returned(Err("Invalid type " + TypeRepr(v) + "."))
    decreases v, Depth(t), 1, 0, 0
  {
    match t
    case NullableOf(inner) =>
      if v.PNone? then Returned(Ok(NullableW(t, PNone)))
      else
        var x :- ValidateValue(cat, inner, v, rev);
        Returned(match x
          case Ok(y) => Ok(NullableW(t, y))
          case Err(m) => Err(m))
    case ListOf(inner) => CoerceList(cat, t, v, rev)
    case Named(n) => CoerceNamed(cat, n, v, rev)
  }

  /** `List.coerce`: a list whose items all validate, or the failing items'
      messages with their indices. */
  function CoerceList(cat: Catalog, t: TypeExpr, v: PyValue, rev: Revision): (r: Raising<Result<PyValue, string>>)
    requires t.ListOf?
    ensures r.Returned? && r.value.Ok? ==> r.value.value.ListW? && r.value.value.typ == t
    decreases v, Depth(t), 0, 1, 0
  {
    if !v.PList? then Returned(Err("Invalid type " + TypeRepr(v) + "."))
    else
      var rs :- ValidateItems(cat, t, v, |v.items|, rev);
      Returned(match Sequence(rs)
        case Ok(vs) => Ok(ListW(t, vs))
        case Err(errs) => Err(ListMessage(errs)))
  }

  /** The first `n` items of a list, each validated against the list's
      element type in order; the first that raises decides the exception. */
  function ValidateItems(cat: Catalog, t: TypeExpr, v: PyValue, n: nat, rev: Revision): (r: Raising<seq<Result<PyValue, string>>>)
    requires t.ListOf? && v.PList? && n <= |v.items|
    ensures r.Returned? ==> |r.value| == n
    decreases v, Depth(t), 0, 0, n
  {
    if n == 0 then Returned([])
    else
      var init :- ValidateItems(cat, t, v, n - 1, rev);
      var last :- ValidateValue(cat, t.inner, v.items[n - 1], rev);
      Returned(init + [last])
  }

  /** `coerce` of the class named `n`. */
  function CoerceNamed(cat: Catalog, n: string, v: PyValue, rev: Revision): (r: Raising<Result<PyValue, string>>)
    ensures r.Returned? && r.value.Ok? ==> InstanceOfClass(cat, r.value.value, n)
    ensures n in cat && cat[n].InputObjectDef? && v.PDict? ==> match ValidateArgs(cat, cat[n].inputFields, v.entries, rev)
      case Raised(e) => r == Raised(e)
      case Returned(Err(_)) => r == Raised(NotImplementedError)
      case Returned(Ok(fields)) => r == Returned(Ok(InputObjectW(n, fields)))
    decreases v, 0, 0, 2, 0
  {
    if n !in cat then Raised(AttributeError)
    else match cat[n]
      case ScalarDef(cls) =>
        (match cls
         case IntScalar => Returned(CoerceInt(v, rev))
         case FloatScalar => Returned(CoerceFloat(v))
         case BooleanScalar => Returned(CoerceBoolean(v))
         case StringLike => Returned(CoerceString(n, v))
         case AnyScalarClass => Returned(CoerceAnyScalar(n, v, rev))
         case CustomScalarClass => Returned(Err("No coercion defined to type <class '" + n + "'>"))
         case _ => Raised(AttributeError))
      case EnumDef(members) => Returned(CoerceEnum(n, members, v))
      case InputObjectDef(fields) =>
        if !v.PDict? then Returned(Err("Invalid type " + TypeRepr(v)))
        else
          var checked :- ValidateArgs(cat, fields, v.entries, rev);
          if checked.Err? then Raised(NotImplementedError)
          else Returned(Ok(InputObjectW(n, checked.value)))
      case _ => Raised(AttributeError)
  }

  /** `InputObject.__init__(**kwargs)` of the input class `n`: given names
      the class does not define raise `NoSuchArgument`; otherwise required
      names (of a type other than `Nullable`) not given raise
      `MissingArgument`; otherwise the instance holds the given values.
      `coerce` builds its instance from values `validate_args` accepted, which
      never raise here (`CoercionFacts.ValidatedArgsConstruct`). */
  function InputObjectInit(n: string, fields: seq<ArgDef>, kwargs: seq<(string, PyValue)>): (r: Raising<PyValue>)
    ensures r.Returned? <==>
      && (forall j | 0 <= j < |kwargs| :: DefinesArg(fields, kwargs[j].0))
      && (forall i | 0 <= i < |fields| :: !IsNullable(fields[i].typ) ==> HasKey(kwargs, fields[i].name))
    ensures r.Returned? ==> r.value.InputObjectW? && r.value.cls == n && r.value.fields == kwargs
    ensures r.Raised? && r.exc.UnknownArguments? ==>
      forall k :: k in r.exc.names <==> HasKey(kwargs, k) && !DefinesArg(fields, k)
    ensures r.Raised? && !r.exc.UnknownArguments? ==>
      && r.exc.MissingArguments?
      && (forall j | 0 <= j < |kwargs| :: DefinesArg(fields, kwargs[j].0))
      && forall k :: k in r.exc.names <==> exists i | 0 <= i < |fields| ::
           fields[i].name == k && !IsNullable(fields[i].typ) && !HasKey(kwargs, k)
  {
    var unknown := set j | 0 <= j < |kwargs| && !DefinesArg(fields, kwargs[j].0) :: kwargs[j].0;
    assert forall j | 0 <= j < |kwargs| :: !DefinesArg(fields, kwargs[j].0) ==> kwargs[j].0 in unknown;
    if unknown != {} then
      var k :| k in unknown;
      Raised(UnknownArguments(unknown))
    else
      var missing := set i | 0 <= i < |fields| && !IsNullable(fields[i].typ) && !HasKey(kwargs, fields[i].name) :: fields[i].name;
      assert forall i | 0 <= i < |fields| :: !IsNullable(fields[i].typ) && !HasKey(kwargs, fields[i].name) ==> fields[i].name in missing;
      if missing != {} then
        var k :| k in missing;
        Raised(MissingArguments(missing))
      else Returned(InputObjectW(n, kwargs))
  }

  // ---------------------------------------------------------------------
  // Arguments

  /** The type of the schema's argument `name`. */
  function ArgType(schema: seq<ArgDef>, name: string): TypeExpr
    requires DefinesArg(schema, name)
  {
    FindBy(schema, ArgName, name).value.typ
  }

  /** What `validate_args` accepts: every given name is defined, every
      argument not of a `Nullable` type is given, and every given value
      validates. */
  predicate ArgsCoerce(cat: Catalog, schema: seq<ArgDef>, given: seq<(string, PyValue)>, rev: Revision) {
    && (forall j | 0 <= j < |given| :: DefinesArg(schema, given[j].0))
    && (forall i | 0 <= i < |schema| :: !IsNullable(schema[i].typ) ==> HasKey(given, schema[i].name))
    && (forall j | 0 <= j < |given| ::
         var r := ValidateValue(cat, ArgType(schema, given[j].0), given[j].1, rev); r.Returned? && r.value.Ok?)
  }

  /** One message per given name the schema does not define. */
  function UnknownMessages(schema: seq<ArgDef>, given: seq<(string, PyValue)>): (ms: seq<string>)
    ensures |ms| == 0 <==> forall j | 0 <= j < |given| :: DefinesArg(schema, given[j].0)
  {
    if |given| == 0 then []
    else
      (if DefinesArg(schema, given[0].0) then [] else ["No argument named `" + given[0].0 + "`."])
      + UnknownMessages(schema, given[1..])
  }

  /** One message per argument of a type other than `Nullable` that is not given. */
  function MissingMessages(schema: seq<ArgDef>, given: seq<(string, PyValue)>): (ms: seq<string>)
    ensures |ms| == 0 <==> forall i | 0 <= i < |schema| :: !IsNullable(schema[i].typ) ==> HasKey(given, schema[i].name)
  {
    if |schema| == 0 then []
    else
      (if IsNullable(schema[0].typ) || HasKey(given, schema[0].name) then []
       else ["No value for required argument `" + schema[0].name + "`."])
      + MissingMessages(schema[1..], given)
  }

  /** One message per argument whose value does not validate, in the order given. */
  function InvalidMessages(errs: seq<(string, string)>): (ms: seq<string>)
    ensures |ms| == |errs|
  {
    if |errs| == 0 then []
    else ["Invalid value for argument `" + errs[0].0 + "`:\n" + IndentMsg(errs[0].1)] + InvalidMessages(errs[1..])
  }

  /** The first `n` given values whose names the schema defines, each
      validated against its argument's type in order; the first that raises
      decides the exception. */
  function CoercedArgs(cat: Catalog, schema: seq<ArgDef>, given: seq<(string, PyValue)>, n: nat, rev: Revision): (r: Raising<seq<(string, Result<PyValue, string>)>>)
    requires n <= |given|
    ensures r.Returned? ==> |r.value| <= n
    decreases PDict(given), 0, 0, 0, n
  {
    if n == 0 then Returned([])
    else
      var init :- CoercedArgs(cat, schema, given, n - 1, rev);
      if !DefinesArg(schema, given[n - 1].0) then Returned(init)
      else
        var last :- ValidateValue(cat, ArgType(schema, given[n - 1].0), given[n - 1].1, rev);
        Returned(init + [(given[n - 1].0, last)])
  }

  /** `validate_args`: the sorted messages about unknown and missing
      arguments, then one per invalid value; `Ok` of the validated values,
      in the order given, when there is none. */
  function ValidateArgs(cat: Catalog, schema: seq<ArgDef>, given: seq<(string, PyValue)>, rev: Revision): (r: Raising<Result<seq<(string, PyValue)>, string>>)
    decreases PDict(given), 0, 0, 1, 0
  {
    var coerced :- CoercedArgs(cat, schema, given, |given|, rev);
    var fields := Fields(coerced);
    var errors := Sort(UnknownMessages(schema, given) + MissingMessages(schema, given))
      + (if fields.Err? then InvalidMessages(fields.error) else []);
    Returned(if |errors| > 0 then Err(Join("\n", errors)) else Ok(fields.value))
  }
}
