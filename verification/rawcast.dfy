/** quiz/schema/raw.py: `_cast_type` checks a raw introspection record
    against its kind and narrows it to the named tuple of that kind; `load`
    casts every entry of `__schema.types`. */
module RawCast {
  import opened Exceptions
  import opened Results
  import opened Values
  import opened Introspection

  datatype TypeSchema =
    | Scalar(name: PyValue, desc: PyValue)
    | Object(name: PyValue, desc: PyValue, interfaces: Slot<TypeRef>, inputFields: Slot<RawInputValue>,
             fields: Slot<RawField>)
    | Interface(name: PyValue, desc: PyValue, fields: Slot<RawField>)
    | Enum(name: PyValue, desc: PyValue, values: Slot<RawEnumValue>)
    | Union(name: PyValue, desc: PyValue, types: Slot<TypeRef>)
    | InputObject(name: PyValue, desc: PyValue, inputFields: Slot<RawInputValue>)

  function KindOf(s: TypeSchema): Kind {
    match s
    case Scalar(_, _) => SCALAR
    case Object(_, _, _, _, _) => OBJECT
    case Interface(_, _, _) => INTERFACE
    case Enum(_, _, _) => ENUM
    case Union(_, _, _) => UNION
    case InputObject(_, _, _) => INPUT_OBJECT
  }

  /** The slots each kind requires to be null, and the one it requires to be
      present: the assertions of `_cast_type`, stated per kind. */
  predicate Admits(t: RawType) {
    match t.kind
    case SCALAR =>
      t.interfaces.NullSlot? && t.inputFields.NullSlot? && t.fields.NullSlot?
      && t.possibleTypes.NullSlot? && t.enumValues.NullSlot?
    case OBJECT => t.enumValues.NullSlot? && t.possibleTypes.NullSlot?
    case INTERFACE =>
      t.inputFields.NullSlot? && t.interfaces.NullSlot? && t.enumValues.NullSlot? && !t.possibleTypes.NullSlot?
    case ENUM => t.interfaces.NullSlot? && t.inputFields.NullSlot? && t.fields.NullSlot? && t.possibleTypes.NullSlot?
    case UNION => t.interfaces.NullSlot? && t.inputFields.NullSlot? && t.fields.NullSlot?
    case INPUT_OBJECT =>
      t.fields.NullSlot? && t.interfaces.NullSlot? && t.possibleTypes.NullSlot? && t.enumValues.NullSlot?
    case _ => false
  }

  /** `_cast_type(typ)`. The assertions run in source order, so the first
      failing one raises AssertionError; a wrapper kind reaches
      `raise NotImplementedError(type.kind)`, whose argument looks up `kind`
      on the builtin `type` and so raises AttributeError instead. */
  function CastType(t: RawType): (r: Raising<TypeSchema>)
    ensures r.Returned? <==> Admits(t)
    ensures r.Raised? ==> r.exc == (if t.kind == NON_NULL || t.kind == LIST then AttributeError else AssertionError)
    ensures r.Returned? ==> KindOf(r.value) == t.kind && r.value.name == t.name && r.value.desc == t.desc
  {
    match t.kind
    case SCALAR =>
      if !t.interfaces.NullSlot? || !t.inputFields.NullSlot? || !t.fields.NullSlot?
         || !t.possibleTypes.NullSlot? || !t.enumValues.NullSlot? then Raised(AssertionError)
      else Returned(Scalar(t.name, t.desc))
    case OBJECT =>
      if !t.enumValues.NullSlot? || !t.possibleTypes.NullSlot? then Raised(AssertionError)
      else Returned(Object(t.name, t.desc, t.interfaces, t.inputFields, t.fields))
    case INTERFACE =>
      if !t.inputFields.NullSlot? || !t.interfaces.NullSlot? || !t.enumValues.NullSlot?
         || t.possibleTypes.NullSlot? then Raised(AssertionError)
      else Returned(Interface(t.name, t.desc, t.fields))
    case ENUM =>
      if !t.interfaces.NullSlot? || !t.inputFields.NullSlot? || !t.fields.NullSlot?
         || !t.possibleTypes.NullSlot? then Raised(AssertionError)
      else Returned(Enum(t.name, t.desc, t.enumValues))
    case UNION =>
      if !t.interfaces.NullSlot? || !t.inputFields.NullSlot? || !t.fields.NullSlot? then Raised(AssertionError)
      else Returned(Union(t.name, t.desc, t.possibleTypes))
    case INPUT_OBJECT =>
      if !t.fields.NullSlot? || !t.interfaces.NullSlot? || !t.possibleTypes.NullSlot?
         || !t.enumValues.NullSlot? then Raised(AssertionError)
      else Returned(InputObject(t.name, t.desc, t.inputFields))
    case _ => Raised(AttributeError)
  }

  /** The raw record a cast type comes from, with every slot its kind does
      not keep null (an interface's possible types: an empty list). */
  function Uncast(s: TypeSchema): RawType {
    match s
    case Scalar(n, d) => RawType(n, SCALAR, d, NullSlot, NullSlot, NullSlot, NullSlot, NullSlot)
    case Object(n, d, ifaces, inputs, fields) => RawType(n, OBJECT, d, fields, inputs, ifaces, NullSlot, NullSlot)
    case Interface(n, d, fields) => RawType(n, INTERFACE, d, fields, NullSlot, NullSlot, ListSlot([]), NullSlot)
    case Enum(n, d, values) => RawType(n, ENUM, d, NullSlot, NullSlot, NullSlot, NullSlot, values)
    case Union(n, d, types) => RawType(n, UNION, d, NullSlot, NullSlot, NullSlot, types, NullSlot)
    case InputObject(n, d, inputs) => RawType(n, INPUT_OBJECT, d, NullSlot, inputs, NullSlot, NullSlot, NullSlot)
  }

  /** What a cast forgets: an interface's possible types and a union's enum
      values, the two slots that are neither checked null nor kept. */
  function Forget(t: RawType): RawType {
    match t.kind
    case INTERFACE => t.(possibleTypes := ListSlot([]))
    case UNION => t.(enumValues := NullSlot)
    case _ => t
  }

  /** Every type of every kind is the cast of some raw record. */
  lemma CastUncast(s: TypeSchema)
    ensures CastType(Uncast(s)) == Returned(s)
  {
  }

  /** A cast keeps every slot of the raw record except the two it forgets. */
  lemma UncastCast(t: RawType)
    requires CastType(t).Returned?
    ensures Uncast(CastType(t).value) == Forget(t)
  {
  }

  /** `_cast_type(_deserialize_type(conf))`. */
  function CastRaw(conf: PyValue): Raising<TypeSchema> {
    var t :- DeserializeType(conf);
    CastType(t)
  }

  /** `load(raw_schema)`, consumed to the end: one cast type per entry of
      `raw_schema['types']`, in order; the first entry that fails decides the
      exception. */
  function Load(rawSchema: PyValue): (r: Raising<seq<TypeSchema>>)
    ensures Lookup(rawSchema, "types").None? ==> r.Raised?
    ensures Lookup(rawSchema, "types").Some? && Lookup(rawSchema, "types").value.PList? ==>
      var raw := Lookup(rawSchema, "types").value.items;
      && (r.Returned? <==> forall k | 0 <= k < |raw| :: CastRaw(raw[k]).Returned?)
      && (r.Returned? ==> |r.value| == |raw| && forall k | 0 <= k < |raw| :: CastRaw(raw[k]) == Returned(r.value[k]))
  {
    var types :- Item(rawSchema, "types");
    var items :- Iterate(types);
    MapEach(CastRaw, items)
  }
}
