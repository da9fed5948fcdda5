/** `isinstance(value, cls)` for the classes a schema consists of. A class
    of the catalog is matched by identity: a value is an instance of the
    class it was made by (a member of the enum, an object loaded as that
    class, ...). The wrappers `Nullable[...]`, `List[...]` and the generic
    scalar of src/quiz/types.py and quiz/core.py test membership through
    their metaclass's `__instancecheck__`, structurally. */
module Membership {
  import opened Catalogs
  import opened Values

  /** `isinstance(v, cls)` for the class named `n` of the catalog. A name
      the catalog lacks is a class nothing is an instance of. */
  predicate InstanceOfClass(cat: Catalog, v: PyValue, n: string) {
    n in cat &&
    match cat[n]
    case ScalarDef(cls) =>
      (match cls
       case Primitive(k) => IsPrimInstance(v, k)
       case GenericScalarClass => IsPrimitive(v)
       case CustomScalarClass => v.PScalar? && v.cls == n
       case IntScalar => v.IntW?
       case FloatScalar => v.FloatW?
       case BooleanScalar => v.BooleanW?
       case StringLike => v.StringW? && v.cls == n
       case AnyScalarClass => v.AnyScalarW? && v.cls == n)
    case EnumDef(_) => v.PEnumMember? && v.cls == n
    case ObjectDef(_, _) => v.PObject? && v.cls == n
    case InterfaceDef(_) =>
      v.PObject? && (v.cls == n || (v.cls in cat && cat[v.cls].ObjectDef? && n in cat[v.cls].interfaces))
    case UnionDef(possible) => v.PObject? && v.cls in possible
    case InputObjectDef(_) => v.InputObjectW? && v.cls == n
  }

  /** `isinstance(v, t)` with the metaclasses of src/quiz/types.py and
      quiz/core.py: `Nullable[t]` admits `None` and the members of `t`,
      `List[t]` admits a list whose every element is a member of `t`. */
  predicate IsInstance(cat: Catalog, v: PyValue, t: TypeExpr)
    decreases t
  {
    match t
    case Named(n) => InstanceOfClass(cat, v, n)
    case NullableOf(inner) => v.PNone? || IsInstance(cat, v, inner)
    case ListOf(inner) => v.PList? && forall k | 0 <= k < |v.items| :: IsInstance(cat, v.items[k], inner)
  }

  /** `None` fits a type exactly when the type is `Nullable[...]` at the
      outside: no class of a catalog has `None` as an instance. */
  lemma NoneFitsOnlyNullable(cat: Catalog, t: TypeExpr)
    ensures IsInstance(cat, PNone, t) <==> IsNullable(t)
  {
  }

  /** The empty list is a member of every list type. */
  lemma EmptyListFits(cat: Catalog, t: TypeExpr)
    ensures IsInstance(cat, PList([]), ListOf(t))
  {
  }

  /** A list fits `List[t]` exactly when both of its halves do. */
  lemma ListHalves(cat: Catalog, a: seq<PyValue>, b: seq<PyValue>, t: TypeExpr)
    ensures IsInstance(cat, PList(a + b), ListOf(t)) <==> IsInstance(cat, PList(a), ListOf(t)) && IsInstance(cat, PList(b), ListOf(t))
  {
    var ab := a + b;
    assert forall k | 0 <= k < |a| :: ab[k] == a[k];
    assert forall k | 0 <= k < |b| :: ab[|a| + k] == b[k];
  }

  /** Wrapping in `Nullable` only widens, and wrapping twice is wrapping once. */
  lemma NullableWidens(cat: Catalog, v: PyValue, t: TypeExpr)
    ensures IsInstance(cat, v, t) ==> IsInstance(cat, v, NullableOf(t))
    ensures IsInstance(cat, v, NullableOf(NullableOf(t))) == IsInstance(cat, v, NullableOf(t))
  {
  }

  /** A generic scalar admits exactly the values of the four primitive classes. */
  lemma GenericScalarAdmits(cat: Catalog, n: string, v: PyValue)
    requires n in cat && cat[n] == ScalarDef(GenericScalarClass)
    ensures IsInstance(cat, v, Named(n)) <==> v.PInt? || v.PFloat? || v.PBool? || v.PStr? || v.PID?
  {
  }
}
