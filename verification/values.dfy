/** Python values as the library meets them: argument values given by the
    user, JSON data of a response, and instances of the library's own
    classes (enum members, scalar objects, loaded objects and the value
    wrappers of quiz/types.py). */
module Values {
  import opened Results
  import opened Catalogs

  datatype PyValue =
      /** Plain Python values; these are also all JSON data can be. */
    | PNone
    | PBool(b: bool)
    | PInt(i: int)
      /** A `float`, represented by its `str()` text ("1.5", "nan", "inf", ...). */
    | PFloat(repr: string)
    | PStr(s: string)
      /** An instance of quiz/core.py's `ID`, a subclass of `str`. */
    | PID(s: string)
    | PList(items: seq<PyValue>)
      /** A `dict` with string keys, in insertion order. */
    | PDict(entries: seq<(string, PyValue)>)
      /** A member of an enum class, with its name and (string) value. */
    | PEnumMember(cls: string, member: string, value: string)
      /** An instance of a user scalar class; `dumped` is what its `__gql_dump__`
          returns, `None` when the class does not define one. */
    | PScalar(cls: string, dumped: Option<string>)
      /** An instance of an object class, as `load` builds it. */
    | PObject(cls: string, fields: seq<(string, PyValue)>)
      /** Instances of the wrapper classes of quiz/types.py. */
    | IntW(i: int)
    | FloatW(repr: string)
    | BooleanW(b: bool)
      /** A `String` or `ID` (the `StringLike` classes), by class name. */
    | StringW(cls: string, s: string)
      /** An instance of the class `Nullable[...]` / `List[...]` the type expression denotes. */
    | NullableW(typ: TypeExpr, inner: PyValue)
    | ListW(typ: TypeExpr, items: seq<PyValue>)
    | AnyScalarW(cls: string, inner: PyValue)
    | InputObjectW(cls: string, fields: seq<(string, PyValue)>)

  /** Python truthiness, for the values the library tests with `if x` / `x or y`. */
  predicate Truthy(v: PyValue) {
    match v
    case PNone => false
    case PBool(b) => b
    case PInt(i) => i != 0
    case PFloat(r) => r != "0.0" && r != "-0.0"
    case PStr(s) => |s| > 0
    case PID(s) => |s| > 0
    case PList(items) => |items| > 0
    case PDict(entries) => |entries| > 0
    case _ => true
  }

  /** `isinstance(v, k)` for the Python classes `int`, `float`, `bool` and
      `str`: a `bool` is also an `int`, an `ID` is also a `str`. */
  predicate IsPrimInstance(v: PyValue, k: PrimKind) {
    match k
    case PyInt => v.PInt? || v.PBool?
    case PyFloat => v.PFloat?
    case PyBool => v.PBool?
    case PyStr => v.PStr? || v.PID?
    case PyID => v.PID?
  }

  /** `isinstance(v, (int, float, bool, str))`. */
  predicate IsPrimitive(v: PyValue) {
    v.PInt? || v.PFloat? || v.PBool? || v.PStr? || v.PID?
  }

  lemma PrimitiveIsSomePrimInstance(v: PyValue)
    ensures IsPrimitive(v) <==> exists k: PrimKind :: IsPrimInstance(v, k)
  {
    if IsPrimitive(v) {
      assert IsPrimInstance(v, if v.PFloat? then PyFloat else if v.PStr? || v.PID? then PyStr else PyInt);
    }
  }

  /** The `__name__` of `type(v)`. */
  function TypeName(v: PyValue): string {
    match v
    case PNone => "NoneType"
    case PBool(_) => "bool"
    case PInt(_) => "int"
    case PFloat(_) => "float"
    case PStr(_) => "str"
    case PID(_) => "ID"
    case PList(_) => "list"
    case PDict(_) => "dict"
    case PEnumMember(cls, _, _) => cls
    case PScalar(cls, _) => cls
    case PObject(cls, _) => cls
    case IntW(_) => "Int"
    case FloatW(_) => "Float"
    case BooleanW(_) => "Boolean"
    case StringW(cls, _) => cls
    case NullableW(t, _) => WrapperName(t)
    case ListW(t, _) => WrapperName(t)
    case AnyScalarW(cls, _) => cls
    case InputObjectW(cls, _) => cls
  }

  /** The `__name__` quiz/types.py gives the class a type expression denotes. */
  function WrapperName(t: TypeExpr): string {
    match t
    case Named(n) => n
    case NullableOf(inner) => "Nullable[" + WrapperName(inner) + "]"
    case ListOf(inner) => "List[" + WrapperName(inner) + "]"
  }

  /** `repr(type(v))`, as the library's messages show it. */
  function TypeRepr(v: PyValue): string {
    "<class '" + TypeName(v) + "'>"
  }
}
