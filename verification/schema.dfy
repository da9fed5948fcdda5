/** quiz/schema.py: the per-kind narrowing of raw records (`KIND_CAST`) and
    `_load_types`, and the parts of `Schema.from_raw` that decide which
    class each scalar name denotes and which classes are the root types. */
module Schema {
  import opened Exceptions
  import opened Results
  import opened Values
  import opened Catalogs
  import opened Dicts
  import opened Utils
  import opened Introspection
  import TypeRefs

  /** The dataclasses `Scalar`, `Object`, `Interface`, `Enum`, `Union` and
      `InputObject` of quiz/schema.py; `Object` has no input fields. */
  datatype TypeSchema =
    | Scalar(name: PyValue, desc: PyValue)
    | Object(name: PyValue, desc: PyValue, interfaces: Slot<TypeRef>, fields: Slot<RawField>)
    | Interface(name: PyValue, desc: PyValue, fields: Slot<RawField>)
    | Enum(name: PyValue, desc: PyValue, values: Slot<RawEnumValue>)
    | Union(name: PyValue, desc: PyValue, types: Slot<TypeRef>)
    | InputObject(name: PyValue, desc: PyValue, inputFields: Slot<RawInputValue>)

  function KindOf(s: TypeSchema): Kind {
    match s
    case Scalar(_, _) => SCALAR
    case Object(_, _, _, _) => OBJECT
    case Interface(_, _, _) => INTERFACE
    case Enum(_, _, _) => ENUM
    case Union(_, _, _) => UNION
    case InputObject(_, _, _) => INPUT_OBJECT
  }

  /** `KIND_CAST[typ.kind](typ)`. The table has no entry for the wrapper
      kinds. As written, the `OBJECT` entry passes `input_fields=` to the
      `Object` dataclass, which has no such field, so the call raises
      TypeError; the corrected entry leaves it out. */
  function KindCast(t: RawType, rev: Revision): (r: Raising<TypeSchema>)
    ensures t.kind == NON_NULL || t.kind == LIST ==> r == Raised(KeyError)
    ensures rev == AsWritten && t.kind == OBJECT ==> r == Raised(TypeError)
    ensures rev == Corrected ==> (r.Returned? <==> t.kind != NON_NULL && t.kind != LIST)
    ensures r.Returned? ==> KindOf(r.value) == t.kind && r.value.name == t.name && r.value.desc == t.desc
  {
    match t.kind
    case SCALAR => Returned(Scalar(t.name, t.desc))
    case OBJECT =>
      if rev == AsWritten then Raised(TypeError)
      else Returned(Object(t.name, t.desc, t.interfaces, t.fields))
    case INTERFACE => Returned(Interface(t.name, t.desc, t.fields))
    case ENUM => Returned(Enum(t.name, t.desc, t.enumValues))
    case UNION => Returned(Union(t.name, t.desc, t.possibleTypes))
    case INPUT_OBJECT => Returned(InputObject(t.name, t.desc, t.inputFields))
    case _ => Raised(KeyError)
  }

  /** The slot each kind keeps, as its raw record held it. */
  lemma KindCastKeepsSlots(t: RawType, rev: Revision)
    requires KindCast(t, rev).Returned?
    ensures var s := KindCast(t, rev).value;
      match s
      case Object(_, _, ifaces, fields) => ifaces == t.interfaces && fields == t.fields
      case Interface(_, _, fields) => fields == t.fields
      case Enum(_, _, values) => values == t.enumValues
      case Union(_, _, types) => types == t.possibleTypes
      case InputObject(_, _, inputs) => inputs == t.inputFields
      case Scalar(_, _) => true
  {
  }

  /** `KIND_CAST[typ.kind](typ)` of `_deserialize_type(conf)`. */
  function CastRaw(rev: Revision): PyValue -> Raising<TypeSchema> {
    conf => (var t :- DeserializeType(conf); KindCast(t, rev))
  }

  /** `_load_types(raw_schema)`, consumed to the end by `from_raw`: one type
      per entry of `raw_schema["types"]`, in order. */
  function LoadTypes(rawSchema: PyValue, rev: Revision): (r: Raising<seq<TypeSchema>>)
    ensures Lookup(rawSchema, "types").None? ==> r.Raised?
    ensures Lookup(rawSchema, "types").Some? && Lookup(rawSchema, "types").value.PList? ==>
      var raw := Lookup(rawSchema, "types").value.items;
      && (r.Returned? <==> forall k | 0 <= k < |raw| :: CastRaw(rev)(raw[k]).Returned?)
      && (r.Returned? ==> |r.value| == |raw| && forall k | 0 <= k < |raw| :: CastRaw(rev)(raw[k]) == Returned(r.value[k]))
  {
    var types :- Item(rawSchema, "types");
    var items :- Iterate(types);
    MapEach(CastRaw(rev), items)
  }

  /** As written, no schema with an object type loads, and every GraphQL
      schema has one: its query root. */
  lemma ObjectTypesUnloadable(rawSchema: PyValue, i: nat)
    requires Lookup(rawSchema, "types").Some? && Lookup(rawSchema, "types").value.PList?
    requires i < |Lookup(rawSchema, "types").value.items|
    requires DeserializeType(Lookup(rawSchema, "types").value.items[i]).Returned?
    requires DeserializeType(Lookup(rawSchema, "types").value.items[i]).value.kind == OBJECT
    ensures LoadTypes(rawSchema, AsWritten).Raised?
    ensures CastRaw(Corrected)(Lookup(rawSchema, "types").value.items[i]).Returned?
  {
    var raw := Lookup(rawSchema, "types").value.items;
    var t := DeserializeType(raw[i]).value;
    assert KindCast(t, AsWritten) == Raised(TypeError);
    assert CastRaw(AsWritten)(raw[i]).Raised?;
    assert KindCast(t, Corrected).Returned?;
  }

  /** The class a scalar name denotes in `from_raw`. */
  datatype ScalarOrigin = UserScalar(name: string) | BuiltinScalar(name: string) | GeneratedScalar(name: string)

  function UserPairs(user: seq<string>): seq<(string, ScalarOrigin)> {
    KeyedBy(user, n => UserScalar(n))
  }

  function BuiltinPairs(): seq<(string, ScalarOrigin)> {
    KeyedBy(BuiltinScalars, n => BuiltinScalar(n))
  }

  /** `scalars_by_name.update(<generator>)`: the generator checks
      `tp.name not in scalars_by_name` as `update` consumes it, so a name is
      generated only when neither a given class nor an earlier generated one
      has it. */
  function AddGenerated(d: seq<(string, ScalarOrigin)>, names: seq<string>): (r: seq<(string, ScalarOrigin)>)
    ensures |d| <= |r| && r[..|d|] == d
    ensures forall i | |d| <= i < |r| ::
      r[i] == (r[i].0, GeneratedScalar(r[i].0)) && r[i].0 in names && !HasKey(r[..i], r[i].0)
    decreases |names|
  {
    if |names| == 0 then d
    else
      var init := AddGenerated(d, names[..|names| - 1]);
      var n := names[|names| - 1];
      if HasKey(init, n) then init else init + [(n, GeneratedScalar(n))]
  }

  /** The scalar map of `from_raw`: `_namedict(scalars)`, updated with
      `BUILTIN_SCALARS`, then with a generated class per remaining schema
      scalar. */
  function ScalarMap(user: seq<string>, schemaScalars: seq<string>): seq<(string, ScalarOrigin)> {
    AddGenerated(FromPairs(UserPairs(user) + BuiltinPairs()), schemaScalars)
  }

  lemma {:induction false} AddGeneratedSpec(d: seq<(string, ScalarOrigin)>, names: seq<string>, k: string)
    ensures HasKey(AddGenerated(d, names), k) <==> HasKey(d, k) || k in names
    ensures HasKey(d, k) ==> Get(AddGenerated(d, names), k) == Get(d, k)
    ensures !HasKey(d, k) && k in names ==> Get(AddGenerated(d, names), k) == Some(GeneratedScalar(k))
    decreases |names|
  {
    if |names| > 0 {
      var init := AddGenerated(d, names[..|names| - 1]);
      var n := names[|names| - 1];
      AddGeneratedSpec(d, names[..|names| - 1], k);
      assert names == names[..|names| - 1] + [n];
      if !HasKey(init, n) {
        GetAppend(init, (n, GeneratedScalar(n)), k);
        assert Get(init + [(n, GeneratedScalar(n))], k).Some? <==> HasKey(init, k) || k == n;
      }
    }
  }

  /** When every pair's value is a function of its key, the last pair for a
      key gives that function of the key. */
  lemma {:induction false} LastForUniform(ps: seq<(string, ScalarOrigin)>, f: string -> ScalarOrigin, k: string)
    requires forall i | 0 <= i < |ps| :: ps[i].1 == f(ps[i].0)
    ensures LastFor(ps, k) == if HasKey(ps, k) then Some(f(k)) else None
  {
    LastForHasKey(ps, k);
    if |ps| > 0 && ps[|ps| - 1].0 != k {
      LastForUniform(ps[..|ps| - 1], f, k);
      assert HasKey(ps, k) <==> HasKey(ps[..|ps| - 1], k) by {
        if HasKey(ps, k) {
          var i :| 0 <= i < |ps| && ps[i].0 == k;
          assert ps[..|ps| - 1][i].0 == k;
        }
      }
    }
  }

  /** Built-in scalars override user scalars of the same name; user and
      built-in classes are never replaced by generated ones; every schema
      scalar has an entry; nothing else does. */
  lemma ScalarMapSpec(user: seq<string>, schemaScalars: seq<string>, k: string)
    ensures HasKey(ScalarMap(user, schemaScalars), k) <==> k in user || k in BuiltinScalars || k in schemaScalars
    ensures k in BuiltinScalars ==> Get(ScalarMap(user, schemaScalars), k) == Some(BuiltinScalar(k))
    ensures k in user && k !in BuiltinScalars ==> Get(ScalarMap(user, schemaScalars), k) == Some(UserScalar(k))
    ensures k !in user && k !in BuiltinScalars && k in schemaScalars ==>
      Get(ScalarMap(user, schemaScalars), k) == Some(GeneratedScalar(k))
  {
    var us := UserPairs(user);
    var bs := BuiltinPairs();
    var d := FromPairs(us + bs);
    FromPairsSpec(us + bs);
    LastForConcat(us, bs, k);
    LastForUniform(us, n => UserScalar(n), k);
    LastForUniform(bs, n => BuiltinScalar(n), k);
    LastForHasKey(us + bs, k);
    assert HasKey(us, k) <==> k in user by {
      if k in user {
        var i :| 0 <= i < |user| && user[i] == k;
        assert us[i].0 == k;
      }
    }
    assert HasKey(bs, k) <==> k in BuiltinScalars by {
      if k in BuiltinScalars {
        var i :| 0 <= i < |BuiltinScalars| && BuiltinScalars[i] == k;
        assert bs[i].0 == k;
      }
    }
    assert HasKey(d, k) <==> HasKey(us + bs, k) by {
      assert Get(d, k) == LastFor(us + bs, k);
    }
    assert HasKey(us + bs, k) <==> HasKey(us, k) || HasKey(bs, k);
    AddGeneratedSpec(d, schemaScalars, k);
  }

  /** A mutation or subscription root: the class, or the falsy raw entry
      itself (null when the schema has no such root). */
  datatype Root = RootClass(name: string) | NoRoot(raw: PyValue)

  datatype Roots = Roots(query: string, mutation: Root, subscription: Root)

  /** `raw_schema[key] and classes[raw_schema[key]["name"]]`. */
  function OptionalRoot(rawSchema: PyValue, key: string, classes: set<string>): (r: Raising<Root>)
    ensures r.Returned? && r.value.NoRoot? ==> Lookup(rawSchema, key) == Some(r.value.raw) && !Truthy(r.value.raw)
    ensures r.Returned? && r.value.RootClass? ==>
      Lookup(rawSchema, key).Some? && Lookup(Lookup(rawSchema, key).value, "name").Some?
      && TypeRefs.LookupClass(Lookup(Lookup(rawSchema, key).value, "name").value, classes) == Returned(r.value.name)
    ensures Lookup(rawSchema, key) == Some(PNone) ==> r == Returned(NoRoot(PNone))
  {
    var entry :- Item(rawSchema, key);
    if !Truthy(entry) then Returned(NoRoot(entry))
    else
      var name :- Item(entry, "name");
      var cls :- TypeRefs.LookupClass(name, classes);
      Returned(RootClass(cls))
  }

  /** The `query_type`, `mutation_type` and `subscription_type` arguments
      `from_raw` passes, evaluated in that order. */
  function RootTypes(rawSchema: PyValue, classes: set<string>): (r: Raising<Roots>)
    ensures r.Returned? ==>
      Lookup(rawSchema, "queryType").Some? && Lookup(Lookup(rawSchema, "queryType").value, "name").Some?
      && TypeRefs.LookupClass(Lookup(Lookup(rawSchema, "queryType").value, "name").value, classes) == Returned(r.value.query)
    ensures r.Returned? ==> r.value.query in classes
    ensures r.Returned? ==> OptionalRoot(rawSchema, "mutationType", classes) == Returned(r.value.mutation)
    ensures r.Returned? ==> OptionalRoot(rawSchema, "subscriptionType", classes) == Returned(r.value.subscription)
  {
    var queryEntry :- Item(rawSchema, "queryType");
    var queryName :- Item(queryEntry, "name");
    var query :- TypeRefs.LookupClass(queryName, classes);
    var mutation :- OptionalRoot(rawSchema, "mutationType", classes);
    var subscription :- OptionalRoot(rawSchema, "subscriptionType", classes);
    Returned(Roots(query, mutation, subscription))
  }

  function NameEntry(name: string): PyValue {
    PDict([("name", PStr(name))])
  }

  function RootEntry(name: Option<string>): PyValue {
    match name
    case None => PNone
    case Some(n) => NameEntry(n)
  }

  /** The root entries of an introspection result naming these roots. */
  function RootsJson(query: string, mutation: Option<string>, subscription: Option<string>): PyValue {
    PDict([("queryType", NameEntry(query)), ("mutationType", RootEntry(mutation)),
           ("subscriptionType", RootEntry(subscription))])
  }

  function RootOf(name: Option<string>): Root {
    match name
    case None => NoRoot(PNone)
    case Some(n) => RootClass(n)
  }

  /** The entry for a key no earlier entry has is the one `Get` finds. */
  lemma {:induction false} GetPast<V>(before: seq<(string, V)>, p: (string, V), after: seq<(string, V)>)
    requires !HasKey(before, p.0)
    ensures Get(before + [p] + after, p.0) == Some(p.1)
  {
    if |before| > 0 {
      assert (before + [p] + after)[1..] == before[1..] + [p] + after;
      assert !HasKey(before[1..], p.0) by {
        forall i | 0 <= i < |before| - 1 ensures before[1..][i].0 != p.0 {
          assert before[1..][i] == before[i + 1];
        }
      }
      GetPast(before[1..], p, after);
    }
  }

  lemma OptionalRootOf(name: Option<string>, key: string, before: seq<(string, PyValue)>, after: seq<(string, PyValue)>,
                       classes: set<string>)
    requires name.Some? ==> name.value in classes
    requires !HasKey(before, key)
    ensures OptionalRoot(PDict(before + [(key, RootEntry(name))] + after), key, classes) == Returned(RootOf(name))
  {
    GetPast(before, (key, RootEntry(name)), after);
    assert Item(PDict(before + [(key, RootEntry(name))] + after), key) == Returned(RootEntry(name));
  }

  /** Reading the roots of an introspection result that names them gives
      those classes, and no class for a null entry. */
  lemma RootTypesOf(query: string, mutation: Option<string>, subscription: Option<string>, classes: set<string>)
    requires query in classes
    requires mutation.Some? ==> mutation.value in classes
    requires subscription.Some? ==> subscription.value in classes
    ensures RootTypes(RootsJson(query, mutation, subscription), classes)
      == Returned(Roots(query, RootOf(mutation), RootOf(subscription)))
  {
    var q := ("queryType", NameEntry(query));
    var m := ("mutationType", RootEntry(mutation));
    var s := ("subscriptionType", RootEntry(subscription));
    assert [q, m, s] == [q] + [m] + [s] == [q, m] + [s] + [];
    assert Item(RootsJson(query, mutation, subscription), "queryType") == Returned(NameEntry(query));
    assert Item(NameEntry(query), "name") == Returned(PStr(query));
    assert !HasKey([q], "mutationType");
    OptionalRootOf(mutation, "mutationType", [q], [s], classes);
    assert !HasKey([q, m], "subscriptionType");
    OptionalRootOf(subscription, "subscriptionType", [q, m], [], classes);
  }
}
