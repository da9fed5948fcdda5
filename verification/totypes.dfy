/** quiz/schema/to_types.py: `build` turns the cast types of
    quiz/schema/raw.py into classes. Modelled here: the check that every
    schema scalar has a class, the classes made of each kind (the interfaces
    an object inherits, the objects a union joins, the members of an enum),
    the order in which the `ChainMap` of classes looks names up, and the
    fields `_add_fields` gives objects and interfaces. Type references
    resolve as in the `TypeRefs` module. */
module ToTypes {
  import opened Exceptions
  import opened Results
  import opened Values
  import opened Catalogs
  import opened Dicts
  import opened Introspection
  import opened RawCast
  import opened TypeRefs

  /** A class of the schema, by what it was made from. Objects and
      interfaces keep their raw fields (`__raw__`) until `_add_fields`. */
  datatype ClassRef =
    | UserScalar(name: string)
    | BuiltinScalar(name: string)
    | InterfaceClass(name: string, fields: Slot<RawField>)
      /** An enum class with its members as (name, value) pairs. */
    | EnumClass(name: string, members: seq<(string, string)>)
      /** An object class with the names of the interfaces it inherits, in order. */
    | ObjectClass(name: string, interfaces: seq<string>, fields: Slot<RawField>)
      /** `Union[...]` of the named object classes, in order. */
    | UnionClass(name: string, alternatives: seq<string>)
    | InputObjectClass(name: string)

  /** The kind of cast type a class is made of. */
  function ClassKind(c: ClassRef): Kind {
    match c
    case UserScalar(_) => SCALAR
    case BuiltinScalar(_) => SCALAR
    case InterfaceClass(_, _) => INTERFACE
    case EnumClass(_, _) => ENUM
    case ObjectClass(_, _, _) => OBJECT
    case UnionClass(_, _) => UNION
    case InputObjectClass(_) => INPUT_OBJECT
  }

  /** The keys of a dictionary, as a set. */
  function KeySet<V>(d: seq<(string, V)>): (ks: set<string>)
    ensures forall k :: k in ks <==> HasKey(d, k)
  {
    set i | 0 <= i < |d| :: d[i].0
  }

  /** `for x in slot`: a null is not iterable; of the other falsy values an
      empty string or dict gives no items, `False` and zero raise. */
  function SlotItems<T>(s: Slot<T>): (r: Raising<seq<T>>)
    ensures s.ListSlot? ==> r == Returned(s.items)
    ensures r.Returned? && !s.ListSlot? ==> r.value == []
    ensures r.Raised? <==> s.NullSlot? || (s.FalsySlot? && !(s.raw.PStr? || s.raw.PID? || s.raw.PDict?))
    ensures r.Raised? ==> r.exc == TypeError
  {
    match s
    case NullSlot => Raised(TypeError)
    case ListSlot(items) => Returned(items)
    case FalsySlot(v) => if v.PStr? || v.PID? || v.PDict? then Returned([]) else Raised(TypeError)
  }

  /** `ChainMap(*maps)[k]`: the first map that has `k` answers. */
  function ChainGet(maps: seq<seq<(string, ClassRef)>>, k: string): (r: Option<ClassRef>)
    ensures r.None? <==> forall i | 0 <= i < |maps| :: !HasKey(maps[i], k)
    ensures r.Some? ==> exists i | 0 <= i < |maps| ::
      Get(maps[i], k) == r && forall j | 0 <= j < i :: !HasKey(maps[j], k)
  {
    if |maps| == 0 then None
    else if HasKey(maps[0], k) then Get(maps[0], k)
    else
      var r := ChainGet(maps[1..], k);
      assert forall i | 1 <= i < |maps| :: maps[1..][i - 1] == maps[i];
      if r.Some? then
        var i :| 0 <= i < |maps| - 1 && Get(maps[1..][i], k) == r && forall j | 0 <= j < i :: !HasKey(maps[1..][j], k);
        assert Get(maps[i + 1], k) == r;
        r
      else r
  }

  /** `str` names: the only names `type()` and `Enum()` accept. */
  function NameOf(v: PyValue): (r: Raising<string>)
    ensures r.Returned? <==> v.PStr? || v.PID?
    ensures r.Returned? ==> r.value == v.s
    ensures r.Raised? ==> r.exc == TypeError
  {
    if v.PStr? || v.PID? then Returned(v.s) else Raised(TypeError)
  }

  /** The names of the schema scalars a given class map does not cover. */
  function Undefined(names: seq<PyValue>, keys: set<string>): set<PyValue> {
    set v | v in names && !((v.PStr? || v.PID?) && v.s in keys)
  }

  /** The string names among them. */
  function UndefinedNames(names: seq<PyValue>, keys: set<string>): set<string> {
    set i | 0 <= i < |names| && (names[i].PStr? || names[i].PID?) && names[i].s !in keys :: names[i].s
  }

  /** The check of `build`: `{tp.name for tp in scalars} - scalars_.keys()`
      (an unhashable name fails the set comprehension), then, when that set
      is not empty, an exception whose message joins the names (which fails
      on a name that is not a string). */
  function CheckScalars(names: seq<PyValue>, keys: set<string>): (r: Raising<()>)
    ensures r.Returned? <==> forall i | 0 <= i < |names| :: (names[i].PStr? || names[i].PID?) && names[i].s in keys
    ensures r.Raised? && r.exc.UndefinedScalars? ==> r.exc.names == UndefinedNames(names, keys) && r.exc.names != {}
    ensures r.Raised? ==> r.exc.UndefinedScalars? || r.exc == TypeError
    ensures (forall i | 0 <= i < |names| :: names[i].PStr?) && r.Raised? ==> r.exc.UndefinedScalars?
  {
    if exists i | 0 <= i < |names| :: names[i].PList? || names[i].PDict? then Raised(TypeError)
    else
      var undefined := Undefined(names, keys);
      if undefined == {} then
        assert forall i | 0 <= i < |names| :: names[i] !in undefined;
        Returned(())
      else if forall u | u in undefined :: u.PStr? || u.PID? then
        var u :| u in undefined;
        var i :| 0 <= i < |names| && names[i] == u;
        assert names[i].s in UndefinedNames(names, keys);
        Raised(UndefinedScalars(UndefinedNames(names, keys)))
      else
        Raised(TypeError)
  }

  /** The names of an enum's raw values, in order; each must be a string. */
  function EnumNames(values: seq<RawEnumValue>): (r: Raising<seq<string>>)
    ensures r.Returned? <==> forall k | 0 <= k < |values| :: values[k].name.PStr? || values[k].name.PID?
    ensures r.Returned? ==> |r.value| == |values| && forall k | 0 <= k < |values| :: r.value[k] == values[k].name.s
    ensures r.Raised? ==> r.exc == TypeError
  {
    if |values| == 0 then Returned([])
    else
      var init := EnumNames(values[..|values| - 1]);
      assert forall k | 0 <= k < |values| - 1 :: values[..|values| - 1][k] == values[k];
      var last := values[|values| - 1].name;
      if init.Raised? then init
      else if !(last.PStr? || last.PID?) then Raised(TypeError)
      else Returned(init.value + [last.s])
  }

  /** Each name paired with itself. */
  function SelfPairs(names: seq<string>): (ps: seq<(string, string)>)
    ensures |ps| == |names| && forall i | 0 <= i < |names| :: ps[i] == (names[i], names[i])
  {
    seq(|names|, i requires 0 <= i < |names| => (names[i], names[i]))
  }

  /** Assigning keys their own names only ever makes entries whose value is their key. */
  lemma {:induction false} FromSelfPairs(ps: seq<(string, string)>)
    requires forall i | 0 <= i < |ps| :: ps[i].0 == ps[i].1
    ensures forall i | 0 <= i < |FromPairs(ps)| :: FromPairs(ps)[i].0 == FromPairs(ps)[i].1
  {
    if |ps| > 0 {
      FromSelfPairs(ps[..|ps| - 1]);
    }
  }

  /** The members of `enum_as_type(typ)`: `{v.name: v.name for v in typ.values}`,
      so every member's value is its name, one member per distinct raw name,
      in order of first occurrence. */
  function EnumAsType(values: Slot<RawEnumValue>): (r: Raising<seq<(string, string)>>)
    ensures values.NullSlot? ==> r == Raised(TypeError)
    ensures values.ListSlot? ==>
      (r.Returned? <==> forall k | 0 <= k < |values.items| :: values.items[k].name.PStr? || values.items[k].name.PID?)
    ensures r.Returned? ==> DistinctKeys(r.value) && forall i | 0 <= i < |r.value| :: r.value[i].0 == r.value[i].1
    ensures values.ListSlot? && r.Returned? ==> Keys(r.value) == Dedup(EnumNames(values.items).value)
  {
    var vs :- SlotItems(values);
    var names :- EnumNames(vs);
    var ps := SelfPairs(names);
    FromPairsSpec(ps);
    FromSelfPairs(ps);
    assert Keys(ps) == names;
    Returned(FromPairs(ps))
  }

  /** With distinct raw names, the enum has exactly one member per raw value,
      in order, each named and valued by it. */
  lemma EnumMembersInOrder(vs: seq<RawEnumValue>)
    requires forall k | 0 <= k < |vs| :: vs[k].name.PStr?
    requires forall i, j | 0 <= i < j < |vs| :: vs[i].name != vs[j].name
    ensures var m := EnumAsType(ListSlot(vs)).value;
      |m| == |vs| && forall k | 0 <= k < |vs| :: m[k] == (vs[k].name.s, vs[k].name.s)
  {
    var m := EnumAsType(ListSlot(vs)).value;
    var names := EnumNames(vs).value;
    assert forall i, j | 0 <= i < j < |names| :: names[i] != names[j] by {
      forall i, j | 0 <= i < j < |names| ensures names[i] != names[j] {
        assert vs[i].name != vs[j].name;
      }
    }
    DedupDistinct(names);
    assert Keys(m) == names;
  }

  /** The schema scalars' names, in order. */
  function ScalarNames(ts: seq<TypeSchema>): (ns: seq<PyValue>)
    ensures forall v | v in ns :: exists i | 0 <= i < |ts| :: ts[i].Scalar? && ts[i].name == v
    ensures forall i | 0 <= i < |ts| && ts[i].Scalar? :: ts[i].name in ns
  {
    if |ts| == 0 then []
    else
      var init := ScalarNames(ts[..|ts| - 1]);
      assert forall i | 0 <= i < |ts| - 1 :: ts[..|ts| - 1][i] == ts[i];
      if ts[|ts| - 1].Scalar? then init + [ts[|ts| - 1].name] else init
  }

  /** A type reference naming one of the given classes. */
  predicate NamesClass(ref: TypeRef, keys: set<string>) {
    (ref.name.PStr? || ref.name.PID?) && ref.name.s in keys
  }

  /** `m[ref.name]` for each reference in turn, where `m` has the keys `keys`:
      the names of the classes they refer to, in order. */
  function LookupAll(refs: seq<TypeRef>, keys: set<string>): (r: Raising<seq<string>>)
    ensures r.Returned? <==> forall k | 0 <= k < |refs| :: NamesClass(refs[k], keys)
    ensures r.Returned? ==> |r.value| == |refs| && forall k | 0 <= k < |refs| :: r.value[k] == refs[k].name.s
    ensures r.Raised? ==> exists k | 0 <= k < |refs| :: LookupClass(refs[k].name, keys) == Raised(r.exc)
  {
    if |refs| == 0 then Returned([])
    else
      var init := LookupAll(refs[..|refs| - 1], keys);
      assert forall k | 0 <= k < |refs| - 1 :: refs[..|refs| - 1][k] == refs[k];
      if init.Raised? then init
      else
        var last :- LookupClass(refs[|refs| - 1].name, keys);
        Returned(init.value + [last])
  }

  predicate Distinct(ns: seq<string>) {
    forall i, j | 0 <= i < j < |ns| :: ns[i] != ns[j]
  }

  /** What a class made by `build` refers to exists: an object's interfaces
      and a union's objects (at least one) are classes made before it. */
  predicate RefersTo(c: ClassRef, interfaces: set<string>, objects: set<string>) {
    && (c.ObjectClass? ==> forall k | 0 <= k < |c.interfaces| :: c.interfaces[k] in interfaces)
    && (c.UnionClass? ==> |c.alternatives| > 0 && forall k | 0 <= k < |c.alternatives| :: c.alternatives[k] in objects)
  }

  /** Entries `_namedict` keys by their classes' names, all classes of
      `kind` that refer to existing classes only. */
  predicate MadeAs(d: seq<(string, ClassRef)>, kind: Kind, interfaces: set<string>, objects: set<string>) {
    forall j | 0 <= j < |d| :: d[j].1.name == d[j].0 && ClassKind(d[j].1) == kind && RefersTo(d[j].1, interfaces, objects)
  }

  /** `object_as_type(typ, interfaces)`: the interfaces are looked up in
      order before `type()` sees the name; `type()` then refuses a name that
      is not a string and an interface listed twice. */
  function ObjectAsType(name: PyValue, refs: Slot<TypeRef>, fields: Slot<RawField>, interfaces: set<string>): (r: Raising<(string, ClassRef)>)
    ensures r.Returned? ==> r.value.1.ObjectClass? && r.value.1.fields == fields
    ensures refs.NullSlot? ==> r == Raised(TypeError)
    ensures refs.ListSlot? ==>
      (r.Returned? <==>
        && (forall k | 0 <= k < |refs.items| :: NamesClass(refs.items[k], interfaces))
        && (forall i, j | 0 <= i < j < |refs.items| :: refs.items[i].name.s != refs.items[j].name.s)
        && (name.PStr? || name.PID?))
    ensures refs.ListSlot? && r.Returned? ==>
      && |r.value.1.interfaces| == |refs.items|
      && forall k | 0 <= k < |refs.items| :: r.value.1.interfaces[k] == refs.items[k].name.s
    ensures refs.ListSlot? ==>
      (forall k | 0 <= k < |refs.items| :: refs.items[k].name.PStr?) &&
      (exists k | 0 <= k < |refs.items| :: refs.items[k].name.s !in interfaces) ==>
      r == Raised(KeyError)
  {
    var items :- SlotItems(refs);
    var bases :- LookupAll(items, interfaces);
    var n :- NameOf(name);
    if !Distinct(bases) then Raised(TypeError)
    else Returned((n, ObjectClass(n, bases, fields)))
  }

  /** `union_as_type(typ, objs)`: the objects are looked up in order; a union
      of none raises `TypeError`. */
  function UnionAsType(name: PyValue, refs: Slot<TypeRef>, objects: set<string>): (r: Raising<(string, ClassRef)>)
    ensures r.Returned? ==> r.value.1.UnionClass?
    ensures refs.NullSlot? || refs == ListSlot([]) ==> r == Raised(TypeError)
    ensures refs.ListSlot? ==>
      (r.Returned? <==>
        && (forall k | 0 <= k < |refs.items| :: NamesClass(refs.items[k], objects))
        && |refs.items| > 0
        && (name.PStr? || name.PID?))
    ensures refs.ListSlot? && r.Returned? ==>
      && |r.value.1.alternatives| == |refs.items|
      && forall k | 0 <= k < |refs.items| :: r.value.1.alternatives[k] == refs.items[k].name.s
    ensures refs.ListSlot? ==>
      (forall k | 0 <= k < |refs.items| :: refs.items[k].name.PStr?) &&
      (exists k | 0 <= k < |refs.items| :: refs.items[k].name.s !in objects) ==>
      r == Raised(KeyError)
  {
    var items :- SlotItems(refs);
    var members :- LookupAll(items, objects);
    if |members| == 0 then Raised(TypeError)
    else
      var n :- NameOf(name);
      Returned((n, UnionClass(n, members)))
  }

  /** `<kind>_as_type(typ)`: the class `build` makes of a cast type that is
      not a scalar, with the name `_namedict` files it under. `interfaces`
      and `objects` are the names of the interface and object classes
      references are looked up in. An enum's members are computed before
      `Enum()` sees the name. */
  function ClassFor(t: TypeSchema, interfaces: set<string>, objects: set<string>): (r: Raising<(string, ClassRef)>)
    requires !t.Scalar?
    ensures r.Returned? ==> (t.name.PStr? || t.name.PID?) && r.value.0 == t.name.s && r.value.1.name == t.name.s
    ensures r.Returned? ==> ClassKind(r.value.1) == KindOf(t) && RefersTo(r.value.1, interfaces, objects)
  {
    match t
    case Enum(_, _, values) =>
      var members :- EnumAsType(values);
      var name :- NameOf(t.name);
      Returned((name, EnumClass(name, members)))
    case Interface(_, _, fields) =>
      var name :- NameOf(t.name);
      Returned((name, InterfaceClass(name, fields)))
    case Object(_, _, refs, _, fields) => ObjectAsType(t.name, refs, fields, interfaces)
    case Union(_, _, refs) => UnionAsType(t.name, refs, objects)
    case InputObject(_, _, _) =>
      var name :- NameOf(t.name);
      Returned((name, InputObjectClass(name)))
  }

  /** `map(<kind>_as_type, by_kind[<kind>])` as `_namedict` consumes it: the
      entries for the cast types of one kind, in order, stopping at the
      first that raises. */
  function KindEntries(ts: seq<TypeSchema>, kind: Kind, interfaces: set<string>, objects: set<string>): (r: Raising<seq<(string, ClassRef)>>)
    requires kind != SCALAR
    ensures r.Returned? <==> forall i | 0 <= i < |ts| && KindOf(ts[i]) == kind :: ClassFor(ts[i], interfaces, objects).Returned?
    ensures r.Returned? ==> MadeAs(r.value, kind, interfaces, objects)
    ensures r.Raised? ==> exists i | 0 <= i < |ts| && KindOf(ts[i]) == kind :: ClassFor(ts[i], interfaces, objects) == Raised(r.exc)
  {
    if |ts| == 0 then Returned([])
    else
      var init := KindEntries(ts[..|ts| - 1], kind, interfaces, objects);
      assert forall i | 0 <= i < |ts| - 1 :: ts[..|ts| - 1][i] == ts[i];
      var t := ts[|ts| - 1];
      if init.Raised? then init
      else if KindOf(t) != kind then init
      else
        var entry :- ClassFor(t, interfaces, objects);
        Returned(init.value + [entry])
  }

  /** Keeping the last class of each name keeps only classes it was given. */
  lemma MadeAsFromPairs(ps: seq<(string, ClassRef)>, kind: Kind, interfaces: set<string>, objects: set<string>)
    requires MadeAs(ps, kind, interfaces, objects)
    ensures MadeAs(FromPairs(ps), kind, interfaces, objects)
  {
    var d := FromPairs(ps);
    FromPairsEntries(ps);
    forall j | 0 <= j < |d|
      ensures d[j].1.name == d[j].0 && ClassKind(d[j].1) == kind && RefersTo(d[j].1, interfaces, objects)
    {
      assert d[j] in ps;
      var i :| 0 <= i < |ps| && ps[i] == d[j];
    }
  }

  /** `_namedict(map(<kind>_as_type, by_kind[<kind>]))`: the classes of one
      kind by name, a later class replacing an earlier one of the same name. */
  function KindMap(ts: seq<TypeSchema>, kind: Kind, interfaces: set<string>, objects: set<string>): (r: Raising<seq<(string, ClassRef)>>)
    requires kind != SCALAR
    ensures r.Returned? ==> DistinctKeys(r.value)
    ensures r.Returned? ==> MadeAs(r.value, kind, interfaces, objects)
  {
    var ps :- KindEntries(ts, kind, interfaces, objects);
    MadeAsFromPairs(ps, kind, interfaces, objects);
    FromPairsSpec(ps);
    Returned(FromPairs(ps))
  }

  /** The user's scalar classes, keyed by name. */
  function UserPairs(user: seq<string>): seq<(string, ClassRef)> {
    seq(|user|, i requires 0 <= i < |user| => (user[i], UserScalar(user[i])))
  }

  /** The built-in scalar classes, keyed by name. */
  function BuiltinPairs(): seq<(string, ClassRef)> {
    seq(|BuiltinScalars|, i requires 0 <= i < |BuiltinScalars| => (BuiltinScalars[i], BuiltinScalar(BuiltinScalars[i])))
  }

  predicate Hashable(v: PyValue) {
    !v.PList? && !v.PDict?
  }

  /** A field as `_add_fields` sets it on its class: its name, its
      arguments' names with their resolved types, and its resolved type. */
  datatype SetField = SetField(name: string, args: seq<(PyValue, TypeExpr)>, typ: TypeExpr)

  /** The arguments of a field, `{i.name: ...(type=resolve_typeref(i.type, classes)) for i in f.args}`:
      each argument's type is resolved before its name is hashed. */
  function ResolveArgs(args: seq<RawInputValue>, classes: set<string>): (r: Raising<seq<(PyValue, TypeExpr)>>)
    ensures r.Returned? <==> forall k | 0 <= k < |args| :: Resolve(args[k].typ, classes).Returned? && Hashable(args[k].name)
    ensures r.Returned? ==> |r.value| == |args| && forall k | 0 <= k < |args| ::
      r.value[k] == (args[k].name, Resolve(args[k].typ, classes).value)
  {
    if |args| == 0 then Returned([])
    else
      var init := ResolveArgs(args[..|args| - 1], classes);
      assert forall k | 0 <= k < |args| - 1 :: args[..|args| - 1][k] == args[k];
      if init.Raised? then init
      else
        var last := args[|args| - 1];
        var typ :- Resolve(last.typ, classes);
        if !Hashable(last.name) then Raised(TypeError)
        else Returned(init.value + [(last.name, typ)])
  }

  /** One step of `_add_fields`: `setattr(obj, f.name, types.FieldSchema(...))`.
      As written, quiz/types.py has no `FieldSchema`, so looking it up raises
      `AttributeError` before anything else; corrected, the field is built
      (as quiz/types.py's `FieldDefinition`) from the resolved argument types
      and field type, and `setattr` then demands a string name. */
  function FieldFor(f: RawField, classes: set<string>, rev: Revision): (r: Raising<SetField>)
    ensures rev == AsWritten ==> r == Raised(AttributeError)
    ensures rev == Corrected ==>
      (r.Returned? <==> ResolveArgs(f.args, classes).Returned? && Resolve(f.typ, classes).Returned? && (f.name.PStr? || f.name.PID?))
    ensures r.Returned? ==> r.value.name == f.name.s && |r.value.args| == |f.args|
    ensures r.Returned? ==> Canonical(r.value.typ) && NamesIn(r.value.typ, classes)
    ensures r.Returned? ==> forall k | 0 <= k < |r.value.args| :: r.value.args[k].0 == f.args[k].name && NamesIn(r.value.args[k].1, classes)
  {
    if rev == AsWritten then Raised(AttributeError)
    else
      var args :- ResolveArgs(f.args, classes);
      var typ :- Resolve(f.typ, classes);
      var name :- NameOf(f.name);
      Returned(SetField(name, args, typ))
  }

  /** The loop of `_add_fields` over a class's raw fields, in order. */
  function AddFields(fs: seq<RawField>, classes: set<string>, rev: Revision): (r: Raising<seq<SetField>>)
    ensures r.Returned? <==> forall k | 0 <= k < |fs| :: FieldFor(fs[k], classes, rev).Returned?
    ensures r.Returned? ==> |r.value| == |fs| && forall k | 0 <= k < |fs| :: FieldFor(fs[k], classes, rev) == Returned(r.value[k])
    ensures r.Raised? ==> exists k | 0 <= k < |fs| :: FieldFor(fs[k], classes, rev) == Raised(r.exc)
  {
    if |fs| == 0 then Returned([])
    else
      var init := AddFields(fs[..|fs| - 1], classes, rev);
      assert forall k | 0 <= k < |fs| - 1 :: fs[..|fs| - 1][k] == fs[k];
      if init.Raised? then init
      else
        var last :- FieldFor(fs[|fs| - 1], classes, rev);
        Returned(init.value + [last])
  }

  /** `_add_fields(obj, classes)` for an object or interface class; other
      classes get no fields. */
  function ClassFields(c: ClassRef, classes: set<string>, rev: Revision): Raising<seq<SetField>> {
    if c.ObjectClass? || c.InterfaceClass? then
      var fs :- SlotItems(c.fields);
      AddFields(fs, classes, rev)
    else Returned([])
  }

  /** The number of raw fields `_add_fields` iterates over for a class. */
  function FieldCount(c: ClassRef): nat {
    if (c.ObjectClass? || c.InterfaceClass?) && SlotItems(c.fields).Returned? then |SlotItems(c.fields).value| else 0
  }

  /** `for obj in chain(objs.values(), interfaces.values()): _add_fields(obj, classes)`. */
  function AllFields(cs: seq<ClassRef>, classes: set<string>, rev: Revision): (r: Raising<()>)
    ensures r.Returned? <==> forall k | 0 <= k < |cs| :: ClassFields(cs[k], classes, rev).Returned?
    ensures r.Raised? ==> exists k | 0 <= k < |cs| :: ClassFields(cs[k], classes, rev) == Raised(r.exc)
  {
    if |cs| == 0 then Returned(())
    else
      var init := AllFields(cs[..|cs| - 1], classes, rev);
      assert forall k | 0 <= k < |cs| - 1 :: cs[..|cs| - 1][k] == cs[k];
      if init.Raised? then init
      else
        var _ :- ClassFields(cs[|cs| - 1], classes, rev);
        Returned(())
  }

  function ValuesOf(d: seq<(string, ClassRef)>): (vs: seq<ClassRef>)
    ensures |vs| == |d| && forall i | 0 <= i < |d| :: vs[i] == d[i].1
  {
    seq(|d|, i requires 0 <= i < |d| => d[i].1)
  }

  /** The keys of a `ChainMap`: the names some map of it has. */
  function ChainKeys(maps: seq<seq<(string, ClassRef)>>): set<string> {
    if |maps| == 0 then {} else KeySet(maps[0]) + ChainKeys(maps[1..])
  }

  /** The keys of a `ChainMap` are the names it looks up. */
  lemma {:induction false} ChainKeysGet(maps: seq<seq<(string, ClassRef)>>, k: string)
    ensures k in ChainKeys(maps) <==> ChainGet(maps, k).Some?
  {
    if |maps| > 0 {
      ChainKeysGet(maps[1..], k);
    }
  }

  /** The keys of `ChainMap(scalars, BUILTIN_SCALARS)`. */
  function ScalarKeys(user: seq<string>): set<string> {
    (set n | n in user) + (set n | n in BuiltinScalars)
  }

  /** The classes `build` makes of the cast types, by kind: interfaces,
      enums, objects, unions and input objects. Objects are made after the
      interfaces they look up, unions after the objects they join. */
  function MakeClasses(ts: seq<TypeSchema>): (r: Raising<seq<seq<(string, ClassRef)>>>)
    ensures r.Returned? ==> |r.value| == 5
    ensures r.Returned? ==>
      && MadeAs(r.value[0], INTERFACE, {}, {})
      && MadeAs(r.value[1], ENUM, {}, {})
      && MadeAs(r.value[2], OBJECT, KeySet(r.value[0]), {})
      && MadeAs(r.value[3], UNION, {}, KeySet(r.value[2]))
      && MadeAs(r.value[4], INPUT_OBJECT, {}, {})
  {
    var interfaces :- KindMap(ts, INTERFACE, {}, {});
    var enums :- KindMap(ts, ENUM, {}, {});
    var objects :- KindMap(ts, OBJECT, KeySet(interfaces), {});
    var unions :- KindMap(ts, UNION, {}, KeySet(objects));
    var inputObjects :- KindMap(ts, INPUT_OBJECT, {}, {});
    Returned([interfaces, enums, objects, unions, inputObjects])
  }

  /** The classes `_add_fields` runs on, in order: the objects, then the interfaces. */
  function FieldClasses(maps: seq<seq<(string, ClassRef)>>): (cs: seq<ClassRef>)
    requires |maps| == 7
  {
    ValuesOf(maps[4]) + ValuesOf(maps[2])
  }

  /** `build(type_schemas, module_name, scalars)`, returning the maps of its
      `ChainMap` in lookup order: the user's scalars, the built-in scalars,
      then interfaces, enums, objects, unions and input objects, once the
      fields of the objects and interfaces have been added against all of them. */
  function Build(ts: seq<TypeSchema>, user: seq<string>, rev: Revision): (r: Raising<seq<seq<(string, ClassRef)>>>)
    ensures CheckScalars(ScalarNames(ts), ScalarKeys(user)).Raised? ==>
      r == Raised(CheckScalars(ScalarNames(ts), ScalarKeys(user)).exc)
    ensures r.Returned? ==> |r.value| == 7 && r.value[0] == UserPairs(user) && r.value[1] == BuiltinPairs()
  {
    var _ :- CheckScalars(ScalarNames(ts), ScalarKeys(user));
    var kinds :- MakeClasses(ts);
    var maps := [UserPairs(user), BuiltinPairs()] + kinds;
    var _ :- AllFields(FieldClasses(maps), ChainKeys(maps), rev);
    Returned(maps)
  }

  lemma {:induction false} GetUniformPairs(ps: seq<(string, ClassRef)>, f: string -> ClassRef, k: string)
    requires forall i | 0 <= i < |ps| :: ps[i].1 == f(ps[i].0)
    requires HasKey(ps, k)
    ensures Get(ps, k) == Some(f(k))
  {
    GetUniform(ps, k, f(k));
  }

  /** User scalars shadow every other class of the same name, the built-in
      scalars included; the built-in scalars come next. */
  lemma ScalarPrecedence(ts: seq<TypeSchema>, user: seq<string>, rev: Revision, k: string)
    requires Build(ts, user, rev).Returned?
    ensures k in user ==> ChainGet(Build(ts, user, rev).value, k) == Some(UserScalar(k))
    ensures k !in user && k in BuiltinScalars ==> ChainGet(Build(ts, user, rev).value, k) == Some(BuiltinScalar(k))
  {
    var maps: seq<seq<(string, ClassRef)>> := Build(ts, user, rev).value;
    if k in user {
      var i :| 0 <= i < |user| && user[i] == k;
      assert maps[0][i].0 == k;
      GetUniformPairs(maps[0], n => UserScalar(n), k);
    } else if k in BuiltinScalars {
      assert !HasKey(maps[0], k);
      var i :| 0 <= i < |BuiltinScalars| && BuiltinScalars[i] == k;
      assert maps[1][i].0 == k;
      GetUniformPairs(maps[1], n => BuiltinScalar(n), k);
      assert maps[1..][0] == maps[1];
    }
  }

  /** After a successful `build`, every schema scalar name denotes a user or
      built-in scalar class. */
  lemma SchemaScalarsDefined(ts: seq<TypeSchema>, user: seq<string>, rev: Revision, i: nat)
    requires Build(ts, user, rev).Returned?
    requires i < |ts| && ts[i].Scalar?
    ensures ts[i].name.PStr? || ts[i].name.PID?
    ensures var c := ChainGet(Build(ts, user, rev).value, ts[i].name.s);
      c == Some(UserScalar(ts[i].name.s)) || c == Some(BuiltinScalar(ts[i].name.s))
  {
    var names := ScalarNames(ts);
    var j :| 0 <= j < |names| && names[j] == ts[i].name;
    ScalarPrecedence(ts, user, rev, ts[i].name.s);
  }

  /** A schema scalar without a class stops `build`, and the exception names it. */
  lemma UndefinedScalarNamed(ts: seq<TypeSchema>, user: seq<string>, rev: Revision, i: nat)
    requires forall j | 0 <= j < |ts| && ts[j].Scalar? :: ts[j].name.PStr?
    requires i < |ts| && ts[i].Scalar? && ts[i].name.s !in user && ts[i].name.s !in BuiltinScalars
    ensures Build(ts, user, rev).Raised? && Build(ts, user, rev).exc.UndefinedScalars?
    ensures ts[i].name.s in Build(ts, user, rev).exc.names
  {
    var names := ScalarNames(ts);
    var keys := ScalarKeys(user);
    var j :| 0 <= j < |names| && names[j] == ts[i].name;
    assert forall v | v in names :: v.PStr?;
    assert names[j].s !in keys;
    assert CheckScalars(names, keys).Raised?;
  }

  /** A successful `build` is its classes with the scalars in front, their
      fields all added. */
  lemma BuildUnfold(ts: seq<TypeSchema>, user: seq<string>, rev: Revision)
    requires Build(ts, user, rev).Returned?
    ensures MakeClasses(ts).Returned?
    ensures var maps := Build(ts, user, rev).value;
      && maps == [UserPairs(user), BuiltinPairs()] + MakeClasses(ts).value
      && AllFields(FieldClasses(maps), ChainKeys(maps), rev).Returned?
  {
  }

  /** Every class of `objects` is an object class whose interfaces are keys of `interfaces`. */
  predicate ObjectsReferTo(objects: seq<(string, ClassRef)>, interfaces: seq<(string, ClassRef)>) {
    forall j | 0 <= j < |objects| :: objects[j].1.ObjectClass? &&
      forall k | 0 <= k < |objects[j].1.interfaces| :: HasKey(interfaces, objects[j].1.interfaces[k])
  }

  /** Every class of `unions` is a union of at least one object, each a key of `objects`. */
  predicate UnionsReferTo(unions: seq<(string, ClassRef)>, objects: seq<(string, ClassRef)>) {
    forall j | 0 <= j < |unions| :: unions[j].1.UnionClass? && |unions[j].1.alternatives| > 0 &&
      forall k | 0 <= k < |unions[j].1.alternatives| :: HasKey(objects, unions[j].1.alternatives[k])
  }

  lemma MadeObjectsRefer(objects: seq<(string, ClassRef)>, interfaces: seq<(string, ClassRef)>)
    requires MadeAs(objects, OBJECT, KeySet(interfaces), {})
    ensures ObjectsReferTo(objects, interfaces)
  {
    forall j, k | 0 <= j < |objects| && objects[j].1.ObjectClass? && 0 <= k < |objects[j].1.interfaces|
      ensures HasKey(interfaces, objects[j].1.interfaces[k])
    {
      assert objects[j].1.interfaces[k] in KeySet(interfaces);
    }
  }

  lemma MadeUnionsRefer(unions: seq<(string, ClassRef)>, objects: seq<(string, ClassRef)>)
    requires MadeAs(unions, UNION, {}, KeySet(objects))
    ensures UnionsReferTo(unions, objects)
  {
    forall j, k | 0 <= j < |unions| && unions[j].1.UnionClass? && 0 <= k < |unions[j].1.alternatives|
      ensures HasKey(objects, unions[j].1.alternatives[k])
    {
      assert unions[j].1.alternatives[k] in KeySet(objects);
    }
  }

  /** After `build`, every interface an object class inherits is a key of the
      interface map, and every object a union joins is a key of the object
      map; a union joins at least one. */
  lemma BuiltClassesReferToClasses(ts: seq<TypeSchema>, user: seq<string>, rev: Revision)
    requires Build(ts, user, rev).Returned?
    ensures var maps := Build(ts, user, rev).value;
      ObjectsReferTo(maps[4], maps[2]) && UnionsReferTo(maps[5], maps[4])
  {
    BuildUnfold(ts, user, rev);
    var kinds := MakeClasses(ts).value;
    var maps := Build(ts, user, rev).value;
    assert maps[2] == kinds[0] && maps[4] == kinds[2] && maps[5] == kinds[3];
    MadeObjectsRefer(kinds[2], kinds[0]);
    MadeUnionsRefer(kinds[3], kinds[2]);
  }

  /** Where each object and interface class sits among those `_add_fields` runs on. */
  lemma FieldClassAt(maps: seq<seq<(string, ClassRef)>>, i: nat, j: nat)
    requires |maps| == 7 && (i == 2 || i == 4) && j < |maps[i]|
    ensures FieldClasses(maps)[if i == 4 then j else |maps[4]| + j] == maps[i][j].1
  {
  }

  /** After the corrected `build`, every field of every object and interface
      class resolves: its type and each of its arguments' types name classes
      of the `ChainMap`, and its name is a string. */
  lemma BuiltFieldsResolve(ts: seq<TypeSchema>, user: seq<string>, i: nat, j: nat)
    requires Build(ts, user, Corrected).Returned?
    requires i == 2 || i == 4
    requires j < |Build(ts, user, Corrected).value[i]|
    ensures var maps := Build(ts, user, Corrected).value;
      var c := maps[i][j].1;
      && (c.ObjectClass? || c.InterfaceClass?)
      && SlotItems(c.fields).Returned?
      && forall k | 0 <= k < |SlotItems(c.fields).value| ::
        var f := FieldFor(SlotItems(c.fields).value[k], ChainKeys(maps), Corrected);
        && f.Returned?
        && NamesIn(f.value.typ, ChainKeys(maps))
        && forall a | 0 <= a < |f.value.args| :: NamesIn(f.value.args[a].1, ChainKeys(maps))
  {
    BuildUnfold(ts, user, Corrected);
    var maps := Build(ts, user, Corrected).value;
    var kinds := MakeClasses(ts).value;
    assert maps[i] == kinds[i - 2];
    assert ClassKind(maps[i][j].1) == if i == 4 then OBJECT else INTERFACE;
    FieldClassAt(maps, i, j);
    var idx := if i == 4 then j else |maps[4]| + j;
    assert ClassFields(FieldClasses(maps)[idx], ChainKeys(maps), Corrected).Returned?;
  }

  /** With the field lookups the only change, a class the corrected
      `_add_fields` accepts makes the one as written raise exactly when it
      has a field. */
  lemma ClassFieldsAsWritten(c: ClassRef, classes: set<string>, classes': set<string>)
    requires ClassFields(c, classes', Corrected).Returned?
    ensures ClassFields(c, classes, AsWritten) == if FieldCount(c) > 0 then Raised(AttributeError) else Returned([])
  {
    if c.ObjectClass? || c.InterfaceClass? {
      var fs := SlotItems(c.fields).value;
      if |fs| > 0 {
        assert FieldFor(fs[0], classes, AsWritten).Raised?;
      }
    }
  }

  /** As written, `build` raises `AttributeError` as soon as one object or
      interface class has a field, on a schema the corrected `build` accepts. */
  lemma FieldsUnbuildable(ts: seq<TypeSchema>, user: seq<string>, i: nat, j: nat)
    requires Build(ts, user, Corrected).Returned?
    requires i == 2 || i == 4
    requires j < |Build(ts, user, Corrected).value[i]| && FieldCount(Build(ts, user, Corrected).value[i][j].1) > 0
    ensures Build(ts, user, AsWritten) == Raised(AttributeError)
  {
    var maps := [UserPairs(user), BuiltinPairs()] + MakeClasses(ts).value;
    assert Build(ts, user, Corrected).value == maps;
    var cs := FieldClasses(maps);
    var classes := ChainKeys(maps);
    assert AllFields(cs, classes, Corrected).Returned?;
    forall k | 0 <= k < |cs|
      ensures ClassFields(cs[k], classes, AsWritten) == if FieldCount(cs[k]) > 0 then Raised(AttributeError) else Returned([])
    {
      ClassFieldsAsWritten(cs[k], classes, classes);
    }
    FieldClassAt(maps, i, j);
    assert AllFields(cs, classes, AsWritten).Raised?;
  }
}
