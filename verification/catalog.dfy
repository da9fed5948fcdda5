/** The classes a schema consists of, as every revision of the library
    builds them: type expressions (a class name wrapped in `Nullable[...]`
    and `List[...]`), field and argument definitions, and a catalog from
    class name to class. */
module Catalogs {
  import opened Results

  /** A GraphQL type reference as a class expression: `Named` is the class
      of that name, `NullableOf(t)` is `Nullable[t]`, `ListOf(t)` is `List[t]`. */
  datatype TypeExpr = Named(name: string) | NullableOf(inner: TypeExpr) | ListOf(inner: TypeExpr)

  /** The Python classes the library uses directly for built-in scalars;
      `PyID` is quiz/core.py's `ID`, a subclass of `str`. */
  datatype PrimKind = PyInt | PyFloat | PyBool | PyStr | PyID

  /** What kind of class a scalar is. */
  datatype ScalarClass =
      /** A Python class used as is: `int`, `float`, `bool` or `str`. */
    | Primitive(kind: PrimKind)
      /** quiz/types.py: `Int`, `Float`, `Boolean`, and `String` / `ID` (both `StringLike`). */
    | IntScalar | FloatScalar | BooleanScalar | StringLike
      /** quiz/types.py: a generated `AnyScalar` subclass for a scalar without a class. */
    | AnyScalarClass
      /** src/quiz/types.py: a `GenericScalar` class. */
    | GenericScalarClass
      /** A user-supplied `Scalar` subclass. */
    | CustomScalarClass

  /** The names of `BUILTIN_SCALARS` in quiz/types.py, in order. */
  const BuiltinScalars: seq<string> := ["Boolean", "String", "Float", "Int", "ID"]

  datatype ArgDef = ArgDef(name: string, typ: TypeExpr)

  datatype FieldDef = FieldDef(name: string, typ: TypeExpr, args: seq<ArgDef>)

  datatype TypeDef =
    | ScalarDef(cls: ScalarClass)
      /** An enum class with its members as (name, value) pairs. */
    | EnumDef(members: seq<(string, string)>)
      /** An object class with its fields and, in order, the interfaces it derives from. */
    | ObjectDef(fields: seq<FieldDef>, interfaces: seq<string>)
    | InterfaceDef(fields: seq<FieldDef>)
    | UnionDef(possibleTypes: seq<string>)
    | InputObjectDef(inputFields: seq<ArgDef>)

  /** The classes of a schema, by class name. */
  type Catalog = map<string, TypeDef>

  /** `_unwrap_list_or_nullable`: the class inside any `Nullable` and `List` wrappers. */
  function Unwrap(t: TypeExpr): string {
    match t
    case Named(n) => n
    case NullableOf(inner) => Unwrap(inner)
    case ListOf(inner) => Unwrap(inner)
  }

  /** The number of wrappers around the innermost class. */
  function Depth(t: TypeExpr): nat {
    match t
    case Named(_) => 0
    case NullableOf(inner) => 1 + Depth(inner)
    case ListOf(inner) => 1 + Depth(inner)
  }

  /** Wraps `Named(n)` in the wrappers of `t`, outermost first. */
  function Rewrap(t: TypeExpr, n: string): TypeExpr {
    match t
    case Named(_) => Named(n)
    case NullableOf(inner) => NullableOf(Rewrap(inner, n))
    case ListOf(inner) => ListOf(Rewrap(inner, n))
  }

  /** Unwrapping removes exactly the wrappers: re-wrapping the class it
      finds rebuilds the expression. */
  lemma {:induction false} UnwrapRewrap(t: TypeExpr)
    ensures Rewrap(t, Unwrap(t)) == t
  {
    match t
    case Named(_) =>
    case NullableOf(inner) => UnwrapRewrap(inner);
    case ListOf(inner) => UnwrapRewrap(inner);
  }

  /** `issubclass(t, Nullable)`: only the outermost wrapper counts. */
  predicate IsNullable(t: TypeExpr) {
    t.NullableOf?
  }

  /** Classes whose fields can be selected (the `HasFields` metaclass):
      objects and interfaces. */
  predicate HasFields(cat: Catalog, n: string) {
    n in cat && (cat[n].ObjectDef? || cat[n].InterfaceDef?)
  }

  /** The first of `xs` whose `key` is `name`: a field of a class or an
      argument of a field, looked up by name. */
  function FindBy<T>(xs: seq<T>, key: T -> string, name: string): (r: Option<T>)
    ensures r.Some? ==> r.value in xs && key(r.value) == name
    ensures r.None? <==> forall i | 0 <= i < |xs| :: key(xs[i]) != name
  {
    if |xs| == 0 then None
    else if key(xs[0]) == name then Some(xs[0])
    else FindBy(xs[1..], key, name)
  }

  function FieldName(f: FieldDef): string { f.name }

  function ArgName(a: ArgDef): string { a.name }

  /** The field `name` among `fields`. */
  function FindField(fields: seq<FieldDef>, name: string): Option<FieldDef> {
    FindBy(fields, FieldName, name)
  }

  predicate DefinesArg(args: seq<ArgDef>, name: string) {
    exists i | 0 <= i < |args| :: args[i].name == name
  }

  /** The first of the interfaces `ifaces` that declares field `name`. */
  function FindInInterfaces(cat: Catalog, ifaces: seq<string>, name: string): (r: Option<FieldDef>)
    ensures r.Some? ==> r.value.name == name
  {
    if |ifaces| == 0 then None
    else
      var here := if ifaces[0] in cat && cat[ifaces[0]].InterfaceDef? then FindField(cat[ifaces[0]].fields, name) else None;
      if here.Some? then here else FindInInterfaces(cat, ifaces[1..], name)
  }

  /** `getattr(cls, name)` for a field: the class's own field, else the
      field inherited from its interfaces in the order it derives from them. */
  function LookupField(cat: Catalog, cls: string, name: string): (r: Option<FieldDef>)
    ensures r.Some? ==> r.value.name == name
    ensures r.Some? ==> HasFields(cat, cls)
  {
    if cls !in cat then None
    else match cat[cls]
      case ObjectDef(fields, ifaces) =>
        var own := FindField(fields, name);
        if own.Some? then own else FindInInterfaces(cat, ifaces, name)
      case InterfaceDef(fields) => FindField(fields, name)
      case _ => None
  }

  /** Every class a catalog's definitions mention is in the catalog, and
      every interface an object derives from is an interface. */
  predicate Closed(cat: Catalog) {
    forall n | n in cat :: DefClosed(cat, cat[n])
  }

  predicate DefClosed(cat: Catalog, d: TypeDef) {
    match d
    case ScalarDef(_) => true
    case EnumDef(_) => true
    case ObjectDef(fields, ifaces) =>
      && FieldsClosed(cat, fields)
      && (forall i | 0 <= i < |ifaces| :: ifaces[i] in cat && cat[ifaces[i]].InterfaceDef?)
    case InterfaceDef(fields) => FieldsClosed(cat, fields)
    case UnionDef(possible) => forall i | 0 <= i < |possible| :: possible[i] in cat
    case InputObjectDef(fields) => ArgsClosed(cat, fields)
  }

  predicate FieldsClosed(cat: Catalog, fields: seq<FieldDef>) {
    forall i | 0 <= i < |fields| :: Unwrap(fields[i].typ) in cat && ArgsClosed(cat, fields[i].args)
  }

  predicate ArgsClosed(cat: Catalog, args: seq<ArgDef>) {
    forall i | 0 <= i < |args| :: Unwrap(args[i].typ) in cat
  }

  /** In a closed catalog, every field a class has resolves to a class of the catalog. */
  lemma LookupFieldClosed(cat: Catalog, cls: string, name: string)
    requires Closed(cat)
    ensures var r := LookupField(cat, cls, name);
      r.Some? ==> Unwrap(r.value.typ) in cat && ArgsClosed(cat, r.value.args)
  {
    if cls in cat && cat[cls].ObjectDef? && FindField(cat[cls].fields, name).None? {
      FindInInterfacesClosed(cat, cat[cls].interfaces, name);
    }
  }

  lemma {:induction false} FindInInterfacesClosed(cat: Catalog, ifaces: seq<string>, name: string)
    requires Closed(cat)
    ensures var r := FindInInterfaces(cat, ifaces, name);
      r.Some? ==> Unwrap(r.value.typ) in cat && ArgsClosed(cat, r.value.args)
  {
    if |ifaces| > 0 {
      FindInInterfacesClosed(cat, ifaces[1..], name);
      if ifaces[0] in cat && cat[ifaces[0]].InterfaceDef? {
        assert DefClosed(cat, cat[ifaces[0]]);
      }
    }
  }
}
