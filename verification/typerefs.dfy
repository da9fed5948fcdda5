/** `resolve_typeref` and `_resolve_typeref_required`: an introspection
    reference chain (`NON_NULL` / `LIST` / named) becomes a type expression
    in which every type not marked `NON_NULL` is wrapped in Nullable (in
    quiz/schema.py `Nullable[...]`, in quiz/schema/to_types.py
    `Optional[...]`). The two revisions run the same code, which this module
    states once; the classes are given by the set of their names. */
module TypeRefs {
  import opened Exceptions
  import opened Results
  import opened Catalogs
  import opened Values
  import opened Introspection

  /** `classes[name]`: a string naming a class gives that class; any other
      hashable value is a missing key; a list or dict cannot be a key. */
  function LookupClass(name: PyValue, classes: set<string>): (r: Raising<string>)
    ensures r.Returned? <==> (name.PStr? || name.PID?) && name.s in classes
    ensures r.Returned? ==> r.value == name.s
    ensures r.Raised? ==> r.exc == (if name.PList? || name.PDict? then TypeError else KeyError)
  {
    match name
    case PStr(s) => if s in classes then Returned(s) else Raised(KeyError)
    case PID(s) => if s in classes then Returned(s) else Raised(KeyError)
    case PList(_) => Raised(TypeError)
    case PDict(_) => Raised(TypeError)
    case _ => Raised(KeyError)
  }

  /** Type expressions a resolution can produce: Nullable is never applied
      twice in a row. */
  predicate Canonical(t: TypeExpr) {
    match t
    case Named(_) => true
    case NullableOf(u) => !u.NullableOf? && Canonical(u)
    case ListOf(u) => Canonical(u)
  }

  predicate NamesIn(t: TypeExpr, classes: set<string>) {
    match t
    case Named(n) => n in classes
    case NullableOf(u) => NamesIn(u, classes)
    case ListOf(u) => NamesIn(u, classes)
  }

  /** `resolve_typeref(ref, classes)`. A `NON_NULL` reference resolves to its
      inner reference without a Nullable wrapper; any other reference is
      wrapped exactly once. A `NON_NULL` without an inner reference reads
      `None.kind`. */
  function Resolve(ref: TypeRef, classes: set<string>): (r: Raising<TypeExpr>)
    ensures r.Returned? ==> (r.value.NullableOf? <==> ref.kind != NON_NULL)
    ensures r.Returned? ==> Canonical(r.value) && NamesIn(r.value, classes)
    ensures ref.kind == NON_NULL && ref.ofType.None? ==> r == Raised(AttributeError)
    decreases ref, 1
  {
    if ref.kind == NON_NULL then
      match ref.ofType
      case None => Raised(AttributeError)
      case Some(inner) => ResolveRequired(inner, classes)
    else
      var t :- ResolveRequired(ref, classes);
      Returned(NullableOf(t))
  }

  /** `_resolve_typeref_required(ref, classes)`: asserts the reference is not
      `NON_NULL`; a `LIST` becomes a List of its resolved inner reference,
      which carries its own nullability; anything else is a class lookup. */
  function ResolveRequired(ref: TypeRef, classes: set<string>): (r: Raising<TypeExpr>)
    ensures ref.kind == NON_NULL ==> r == Raised(AssertionError)
    ensures r.Returned? ==> !r.value.NullableOf? && Canonical(r.value) && NamesIn(r.value, classes)
    ensures ref.kind == LIST && ref.ofType.None? ==> r == Raised(AttributeError)
    ensures ref.kind != NON_NULL && ref.kind != LIST ==>
      (r.Returned? <==> (ref.name.PStr? || ref.name.PID?) && ref.name.s in classes)
      && (r.Returned? ==> r.value == Named(ref.name.s))
    decreases ref, 0
  {
    if ref.kind == NON_NULL then Raised(AssertionError)
    else if ref.kind == LIST then
      match ref.ofType
      case None => Raised(AttributeError)
      case Some(inner) =>
        var t :- Resolve(inner, classes);
        Returned(ListOf(t))
    else
      var n :- LookupClass(ref.name, classes);
      Returned(Named(n))
  }

  /** A list reference resolves to a List of exactly what its element
      reference resolves to. */
  lemma ResolveList(ref: TypeRef, classes: set<string>)
    requires ref.kind == LIST && ref.ofType.Some?
    ensures ResolveRequired(ref, classes).Returned? <==> Resolve(ref.ofType.value, classes).Returned?
    ensures ResolveRequired(ref, classes).Returned? ==>
      ResolveRequired(ref, classes).value == ListOf(Resolve(ref.ofType.value, classes).value)
  {
  }

  /** A `NON_NULL` directly inside a `NON_NULL` violates the assertion. */
  lemma NonNullInNonNull(ref: TypeRef, classes: set<string>)
    requires ref.kind == NON_NULL && ref.ofType.Some? && ref.ofType.value.kind == NON_NULL
    ensures Resolve(ref, classes) == Raised(AssertionError)
  {
  }

  /** Kinds a named (non-wrapper) reference may carry. */
  predicate NamedKinds(kinds: map<string, Kind>) {
    forall n | n in kinds :: kinds[n] != NON_NULL && kinds[n] != LIST
  }

  /** The reference an introspection query reports for a type expression,
      given the kind of every class: the partner of `Resolve`. */
  function ToRef(t: TypeExpr, kinds: map<string, Kind>): TypeRef
    requires Canonical(t) && NamesIn(t, kinds.Keys)
    decreases t, 1
  {
    match t
    case NullableOf(u) => BareRef(u, kinds)
    case _ => TypeRef(PNone, NON_NULL, Some(BareRef(t, kinds)))
  }

  function BareRef(t: TypeExpr, kinds: map<string, Kind>): TypeRef
    requires !t.NullableOf? && Canonical(t) && NamesIn(t, kinds.Keys)
    decreases t, 0
  {
    match t
    case Named(n) => TypeRef(PStr(n), kinds[n], None)
    case ListOf(u) => TypeRef(PNone, LIST, Some(ToRef(u, kinds)))
  }

  /** The references an introspection query reports: wrappers are nameless
      and have an inner reference, `NON_NULL` is never directly nested, and a
      named reference names a class of its kind. */
  predicate WellFormedRef(ref: TypeRef, kinds: map<string, Kind>)
    decreases ref, 1
  {
    if ref.kind == NON_NULL then
      ref.name == PNone && ref.ofType.Some? && ref.ofType.value.kind != NON_NULL
      && WellFormedBare(ref.ofType.value, kinds)
    else WellFormedBare(ref, kinds)
  }

  predicate WellFormedBare(ref: TypeRef, kinds: map<string, Kind>)
    decreases ref, 0
  {
    if ref.kind == LIST then ref.name == PNone && ref.ofType.Some? && WellFormedRef(ref.ofType.value, kinds)
    else
      ref.kind != NON_NULL && ref.ofType.None? && ref.name.PStr?
      && ref.name.s in kinds && kinds[ref.name.s] == ref.kind
  }

  /** Resolving the reference of a type expression gives that expression back. */
  lemma {:induction false} ResolveToRef(t: TypeExpr, kinds: map<string, Kind>)
    requires Canonical(t) && NamesIn(t, kinds.Keys) && NamedKinds(kinds)
    ensures Resolve(ToRef(t, kinds), kinds.Keys) == Returned(t)
    decreases t, 1
  {
    match t {
      case NullableOf(u) =>
        ResolveBareRef(u, kinds);
      case _ =>
        ResolveBareRef(t, kinds);
    }
  }

  lemma {:induction false} ResolveBareRef(t: TypeExpr, kinds: map<string, Kind>)
    requires !t.NullableOf? && Canonical(t) && NamesIn(t, kinds.Keys) && NamedKinds(kinds)
    ensures ResolveRequired(BareRef(t, kinds), kinds.Keys) == Returned(t)
    decreases t, 0
  {
    match t {
      case Named(n) =>
      case ListOf(u) =>
        ResolveToRef(u, kinds);
    }
  }

  /** Every well-formed reference resolves, and is the reference of what it
      resolves to: resolution is one-to-one on well-formed references. */
  lemma {:induction false} ToRefResolve(ref: TypeRef, kinds: map<string, Kind>)
    requires WellFormedRef(ref, kinds)
    ensures Resolve(ref, kinds.Keys).Returned?
    ensures ToRef(Resolve(ref, kinds.Keys).value, kinds) == ref
    decreases ref, 1
  {
    if ref.kind == NON_NULL {
      BareRefResolve(ref.ofType.value, kinds);
    } else {
      BareRefResolve(ref, kinds);
    }
  }

  lemma {:induction false} BareRefResolve(ref: TypeRef, kinds: map<string, Kind>)
    requires WellFormedBare(ref, kinds)
    ensures ResolveRequired(ref, kinds.Keys).Returned?
    ensures BareRef(ResolveRequired(ref, kinds.Keys).value, kinds) == ref
    decreases ref, 0
  {
    if ref.kind == LIST {
      ToRefResolve(ref.ofType.value, kinds);
    }
  }

  function NamedRef(n: string): TypeRef {
    TypeRef(PStr(n), OBJECT, None)
  }

  /** `[Foo]` is a nullable list of nullable `Foo`; `[Foo!]!` is a list of `Foo`. */
  lemma ListExamples(classes: set<string>)
    requires "Foo" in classes
    ensures Resolve(TypeRef(PNone, LIST, Some(NamedRef("Foo"))), classes)
      == Returned(NullableOf(ListOf(NullableOf(Named("Foo")))))
    ensures Resolve(TypeRef(PNone, NON_NULL, Some(TypeRef(PNone, LIST, Some(TypeRef(PNone, NON_NULL, Some(NamedRef("Foo"))))))), classes)
      == Returned(ListOf(Named("Foo")))
  {
  }

  /** A named reference to a class that does not exist raises KeyError. */
  lemma MissingClass(n: string, classes: set<string>)
    requires n !in classes
    ensures Resolve(NamedRef(n), classes) == Raised(KeyError)
    ensures Resolve(TypeRef(PNone, NON_NULL, Some(NamedRef(n))), classes) == Raised(KeyError)
  {
  }
}
