/** The raw records of a GraphQL introspection result and their reading from
    JSON: `make_typeref`, `make_inputvalue`, `make_field`, `make_enumval` and
    `_deserialize_type`. The code is the same in quiz/schema.py and in
    quiz/schema/raw.py, so both revisions share this module. */
module Introspection {
  import opened Exceptions
  import opened Results
  import opened Values
  import opened Dicts

  /** The `__TypeKind` enumeration, with the introspection names as values. */
  datatype Kind = OBJECT | SCALAR | NON_NULL | LIST | INTERFACE | ENUM | INPUT_OBJECT | UNION

  function KindName(k: Kind): string {
    match k
    case OBJECT => "OBJECT"
    case SCALAR => "SCALAR"
    case NON_NULL => "NON_NULL"
    case LIST => "LIST"
    case INTERFACE => "INTERFACE"
    case ENUM => "ENUM"
    case INPUT_OBJECT => "INPUT_OBJECT"
    case UNION => "UNION"
  }

  /** `Kind(v)`: the member whose value equals `v`; anything else (including
      an unhashable value) raises ValueError. */
  function ParseKind(v: PyValue): (r: Raising<Kind>)
    ensures r.Returned? ==> (v.PStr? || v.PID?) && v.s == KindName(r.value)
    ensures r.Raised? ==> r.exc == ValueError
  {
    if !(v.PStr? || v.PID?) then Raised(ValueError)
    else if v.s == "OBJECT" then Returned(OBJECT)
    else if v.s == "SCALAR" then Returned(SCALAR)
    else if v.s == "NON_NULL" then Returned(NON_NULL)
    else if v.s == "LIST" then Returned(LIST)
    else if v.s == "INTERFACE" then Returned(INTERFACE)
    else if v.s == "ENUM" then Returned(ENUM)
    else if v.s == "INPUT_OBJECT" then Returned(INPUT_OBJECT)
    else if v.s == "UNION" then Returned(UNION)
    else Raised(ValueError)
  }

  /** Every kind is read back from its own name, so no two kinds share one. */
  lemma ParseKindName(k: Kind)
    ensures ParseKind(PStr(KindName(k))) == Returned(k)
    ensures ParseKind(PID(KindName(k))) == Returned(k)
  {
  }

  /** `ref.name`, `ref.kind`, `ref.of_type`; the name is whatever JSON value
      the introspection result holds (a string, or null for a wrapper). */
  datatype TypeRef = TypeRef(name: PyValue, kind: Kind, ofType: Option<TypeRef>)

  datatype RawInputValue = RawInputValue(name: PyValue, desc: PyValue, typ: TypeRef, default: PyValue)

  datatype RawField = RawField(name: PyValue, typ: TypeRef, args: seq<RawInputValue>, desc: PyValue,
                               isDeprecated: PyValue, deprecationReason: PyValue)

  datatype RawEnumValue = RawEnumValue(name: PyValue, desc: PyValue, isDeprecated: PyValue, deprecationReason: PyValue)

  /** The value of `conf[x] and list(map(f, conf[x]))`: the raw value itself
      when it is null or otherwise falsy, the mapped list otherwise. An empty
      JSON list is the (falsy) list `[]`. */
  datatype Slot<T> = NullSlot | ListSlot(items: seq<T>) | FalsySlot(raw: PyValue)

  /** `Type`: one entry of `__schema.types`. */
  datatype RawType = RawType(
    name: PyValue, kind: Kind, desc: PyValue,
    fields: Slot<RawField>, inputFields: Slot<RawInputValue>,
    interfaces: Slot<TypeRef>, possibleTypes: Slot<TypeRef>,
    enumValues: Slot<RawEnumValue>)

  /** The entry `key` of a JSON object, if `conf` is one and has it. */
  function Lookup(conf: PyValue, key: string): Option<PyValue> {
    if conf.PDict? then Get(conf.entries, key) else None
  }

  /** `conf[key]`: TypeError unless `conf` is a dict, KeyError when it lacks the key. */
  function Item(conf: PyValue, key: string): (r: Raising<PyValue>)
    ensures r.Returned? <==> Lookup(conf, key).Some?
    ensures r.Returned? ==> Lookup(conf, key) == Some(r.value)
    ensures r.Raised? ==> r.exc == (if conf.PDict? then KeyError else TypeError)
  {
    if !conf.PDict? then Raised(TypeError)
    else match Get(conf.entries, key)
      case None => Raised(KeyError)
      case Some(v) => Returned(v)
  }

  /** The position of the entry `Get` finds. */
  function IndexOf<V>(d: seq<(string, V)>, k: string): (i: nat)
    requires HasKey(d, k)
    ensures i < |d| && d[i].0 == k && Get(d, k) == Some(d[i].1)
  {
    if d[0].0 == k then 0
    else
      assert HasKey(d[1..], k) by {
        var j :| 0 <= j < |d| && d[j].0 == k;
        assert d[1..][j - 1].0 == k;
      }
      1 + IndexOf(d[1..], k)
  }

  /** `make_typeref(conf)`: name, then kind, then `conf.get("ofType") and
      make_typeref(conf["ofType"])`, so a missing, null or otherwise falsy
      `ofType` gives no inner reference. */
  function MakeTypeRef(conf: PyValue): (r: Raising<TypeRef>)
    ensures r.Returned? ==> Lookup(conf, "name") == Some(r.value.name)
    ensures r.Returned? ==> Lookup(conf, "kind").Some? && ParseKind(Lookup(conf, "kind").value) == Returned(r.value.kind)
    ensures r.Returned? ==>
      (r.value.ofType.None? <==> (Lookup(conf, "ofType").None? || !Truthy(Lookup(conf, "ofType").value)))
    ensures Lookup(conf, "name").None? || Lookup(conf, "kind").None? ==> r.Raised?
    decreases conf
  {
    var name :- Item(conf, "name");
    var kindValue :- Item(conf, "kind");
    var kind :- ParseKind(kindValue);
    if !HasKey(conf.entries, "ofType") then Returned(TypeRef(name, kind, None))
    else
      var i := IndexOf(conf.entries, "ofType");
      var o := conf.entries[i].1;
      if !Truthy(o) then Returned(TypeRef(name, kind, None))
      else
        var inner :- MakeTypeRef(o);
        Returned(TypeRef(name, kind, Some(inner)))
  }

  /** The introspection JSON of a reference: the partner of `MakeTypeRef`. */
  function RefJson(ref: TypeRef): PyValue {
    PDict([
      ("kind", PStr(KindName(ref.kind))),
      ("name", ref.name),
      ("ofType", match ref.ofType case None => PNone case Some(o) => RefJson(o))
    ])
  }

  /** Reading the JSON of any reference gives that reference back, so the
      translation loses nothing and tells different references apart. */
  lemma {:induction false} MakeTypeRefInverse(ref: TypeRef)
    ensures MakeTypeRef(RefJson(ref)) == Returned(ref)
  {
    var conf := RefJson(ref);
    var o := conf.entries[2].1;
    assert conf.entries[0].0 != "name" && conf.entries[0].0 != "ofType" && conf.entries[1].0 != "ofType";
    assert conf.entries[1..] == [("name", ref.name), ("ofType", o)];
    assert Item(conf, "name") == Returned(ref.name);
    assert Item(conf, "kind") == Returned(PStr(KindName(ref.kind)));
    ParseKindName(ref.kind);
    assert HasKey(conf.entries, "ofType") by {
      assert conf.entries[2].0 == "ofType";
    }
    assert IndexOf(conf.entries, "ofType") == 2;
    match ref.ofType {
      case None =>
        assert !Truthy(o);
        assert MakeTypeRef(conf) == Returned(ref);
      case Some(inner) =>
        assert o == RefJson(inner);
        assert |o.entries| == 3;
        MakeTypeRefInverse(inner);
        MakeTypeRefNested(conf, inner);
    }
  }

  /** A reference with a truthy `ofType` holds the reading of that entry. */
  lemma MakeTypeRefNested(conf: PyValue, inner: TypeRef)
    requires Item(conf, "name").Returned? && Item(conf, "kind").Returned? && ParseKind(Item(conf, "kind").value).Returned?
    requires HasKey(conf.entries, "ofType")
    requires Truthy(conf.entries[IndexOf(conf.entries, "ofType")].1)
    requires MakeTypeRef(conf.entries[IndexOf(conf.entries, "ofType")].1) == Returned(inner)
    ensures MakeTypeRef(conf) ==
      Returned(TypeRef(Item(conf, "name").value, ParseKind(Item(conf, "kind").value).value, Some(inner)))
  {
  }

  /** `iter(v)` as `map` consumes it: a list yields its items, a dict its
      keys and a string its characters; other values are not iterable. */
  function Iterate(v: PyValue): (r: Raising<seq<PyValue>>)
    ensures v.PList? ==> r == Returned(v.items)
    ensures r.Raised? <==> !(v.PList? || v.PDict? || v.PStr? || v.PID?)
    ensures r.Raised? ==> r.exc == TypeError
  {
    match v
    case PList(items) => Returned(items)
    case PDict(entries) => Returned(seq(|entries|, i requires 0 <= i < |entries| => PStr(entries[i].0)))
    case PStr(s) => Returned(seq(|s|, i requires 0 <= i < |s| => PStr([s[i]])))
    case PID(s) => Returned(seq(|s|, i requires 0 <= i < |s| => PStr([s[i]])))
    case _ => Raised(TypeError)
  }

  /** `list(map(f, items))`: every item translated in order; the first item
      whose translation raises decides the exception. */
  function MapEach<T>(f: PyValue -> Raising<T>, items: seq<PyValue>): (r: Raising<seq<T>>)
    ensures r.Returned? <==> forall k | 0 <= k < |items| :: f(items[k]).Returned?
    ensures r.Returned? ==> |r.value| == |items| && forall k | 0 <= k < |items| :: f(items[k]) == Returned(r.value[k])
    ensures r.Raised? ==> exists k | 0 <= k < |items| ::
      f(items[k]) == Raised(r.exc) && forall j | 0 <= j < k :: f(items[j]).Returned?
  {
    if |items| == 0 then Returned([])
    else
      var x :- f(items[0]);
      var rest := MapEach(f, items[1..]);
      if rest.Raised? then
        var k :| 0 <= k < |items| - 1 && f(items[1..][k]) == Raised(rest.exc) && forall j | 0 <= j < k :: f(items[1..][j]).Returned?;
        assert f(items[k + 1]) == Raised(rest.exc);
        assert forall j | 0 <= j < k + 1 :: f(items[j]).Returned? by {
          forall j | 0 <= j < k + 1 ensures f(items[j]).Returned? {
            if j > 0 {
              assert items[j] == items[1..][j - 1];
            }
          }
        }
        Raised(rest.exc)
      else
        assert forall k | 0 <= k < |items| :: f(items[k]).Returned? by {
          forall k | 0 <= k < |items| ensures f(items[k]).Returned? {
            if k > 0 {
              assert items[k] == items[1..][k - 1];
            }
          }
        }
        Returned([x] + rest.value)
  }

  /** What `conf[x] and list(map(f, conf[x]))` keeps of the raw value `raw`:
      null stays null, and a non-empty list is translated element by element. */
  ghost predicate SlotFrom<T>(f: PyValue -> Raising<T>, raw: PyValue, s: Slot<T>) {
    && (s.NullSlot? <==> raw.PNone?)
    && (raw.PList? ==> s.ListSlot? && |s.items| == |raw.items|
                       && forall k | 0 <= k < |raw.items| :: f(raw.items[k]) == Returned(s.items[k]))
  }

  function SlotOf<T>(f: PyValue -> Raising<T>, raw: PyValue): (r: Raising<Slot<T>>)
    ensures r.Returned? ==> SlotFrom(f, raw, r.value)
    ensures raw.PList? ==> (r.Returned? <==> forall k | 0 <= k < |raw.items| :: f(raw.items[k]).Returned?)
  {
    if raw.PNone? then Returned(NullSlot)
    else if !Truthy(raw) then
      if raw.PList? then Returned(ListSlot([])) else Returned(FalsySlot(raw))
    else
      var items :- Iterate(raw);
      var xs :- MapEach(f, items);
      Returned(ListSlot(xs))
  }

  /** The list slot of `list(map(f, conf[x]))` for `args`, which has no `and`
      guard: a null raises TypeError. */
  function ListOf<T>(f: PyValue -> Raising<T>, raw: PyValue): (r: Raising<seq<T>>)
    ensures raw.PNone? ==> r == Raised(TypeError)
    ensures raw.PList? ==> (r.Returned? <==> forall k | 0 <= k < |raw.items| :: f(raw.items[k]).Returned?)
    ensures raw.PList? && r.Returned? ==>
      |r.value| == |raw.items| && forall k | 0 <= k < |raw.items| :: f(raw.items[k]) == Returned(r.value[k])
  {
    var items :- Iterate(raw);
    MapEach(f, items)
  }

  /** `make_inputvalue(conf)`. */
  function MakeInputValue(conf: PyValue): (r: Raising<RawInputValue>)
    ensures r.Returned? ==> Lookup(conf, "name") == Some(r.value.name) && Lookup(conf, "description") == Some(r.value.desc)
    ensures r.Returned? ==> Lookup(conf, "type").Some? && MakeTypeRef(Lookup(conf, "type").value) == Returned(r.value.typ)
    ensures r.Returned? ==> Lookup(conf, "defaultValue") == Some(r.value.default)
  {
    var name :- Item(conf, "name");
    var desc :- Item(conf, "description");
    var typeConf :- Item(conf, "type");
    var typ :- MakeTypeRef(typeConf);
    var default :- Item(conf, "defaultValue");
    Returned(RawInputValue(name, desc, typ, default))
  }

  /** `make_field(conf)`. */
  function MakeField(conf: PyValue): (r: Raising<RawField>)
    ensures r.Returned? ==> Lookup(conf, "name") == Some(r.value.name) && Lookup(conf, "description") == Some(r.value.desc)
    ensures r.Returned? ==> Lookup(conf, "type").Some? && MakeTypeRef(Lookup(conf, "type").value) == Returned(r.value.typ)
    ensures r.Returned? ==> Lookup(conf, "args").Some? && ListOf(MakeInputValue, Lookup(conf, "args").value) == Returned(r.value.args)
    ensures r.Returned? ==>
      Lookup(conf, "isDeprecated") == Some(r.value.isDeprecated) && Lookup(conf, "deprecationReason") == Some(r.value.deprecationReason)
  {
    var name :- Item(conf, "name");
    var typeConf :- Item(conf, "type");
    var typ :- MakeTypeRef(typeConf);
    var argsConf :- Item(conf, "args");
    var args :- ListOf(MakeInputValue, argsConf);
    var desc :- Item(conf, "description");
    var deprecated :- Item(conf, "isDeprecated");
    var reason :- Item(conf, "deprecationReason");
    Returned(RawField(name, typ, args, desc, deprecated, reason))
  }

  /** `make_enumval(conf)`. */
  function MakeEnumValue(conf: PyValue): (r: Raising<RawEnumValue>)
    ensures r.Returned? ==> Lookup(conf, "name") == Some(r.value.name) && Lookup(conf, "description") == Some(r.value.desc)
    ensures r.Returned? ==>
      Lookup(conf, "isDeprecated") == Some(r.value.isDeprecated) && Lookup(conf, "deprecationReason") == Some(r.value.deprecationReason)
  {
    var name :- Item(conf, "name");
    var desc :- Item(conf, "description");
    var deprecated :- Item(conf, "isDeprecated");
    var reason :- Item(conf, "deprecationReason");
    Returned(RawEnumValue(name, desc, deprecated, reason))
  }

  /** The keys `_deserialize_type` reads. */
  const TypeKeys: set<string> :=
    {"name", "kind", "description", "fields", "inputFields", "interfaces", "possibleTypes", "enumValues"}

  /** `conf[key] and list(map(f, conf[key]))`. */
  function ReadSlot<T>(conf: PyValue, key: string, f: PyValue -> Raising<T>): (r: Raising<Slot<T>>)
    ensures Lookup(conf, key).None? ==> r.Raised?
    ensures r.Returned? ==> Lookup(conf, key).Some? && SlotFrom(f, Lookup(conf, key).value, r.value)
  {
    var raw :- Item(conf, key);
    SlotOf(f, raw)
  }

  /** The five list slots of `_deserialize_type`, read in order. */
  datatype Slots = Slots(fields: Slot<RawField>, inputFields: Slot<RawInputValue>,
                         interfaces: Slot<TypeRef>, possibleTypes: Slot<TypeRef>,
                         enumValues: Slot<RawEnumValue>)

  function ReadSlots(conf: PyValue): (r: Raising<Slots>)
    ensures r.Returned? ==> Lookup(conf, "fields").Some? && SlotFrom(MakeField, Lookup(conf, "fields").value, r.value.fields)
    ensures r.Returned? ==>
      Lookup(conf, "inputFields").Some? && SlotFrom(MakeInputValue, Lookup(conf, "inputFields").value, r.value.inputFields)
    ensures r.Returned? ==>
      Lookup(conf, "interfaces").Some? && SlotFrom(MakeTypeRef, Lookup(conf, "interfaces").value, r.value.interfaces)
    ensures r.Returned? ==>
      Lookup(conf, "possibleTypes").Some? && SlotFrom(MakeTypeRef, Lookup(conf, "possibleTypes").value, r.value.possibleTypes)
    ensures r.Returned? ==>
      Lookup(conf, "enumValues").Some? && SlotFrom(MakeEnumValue, Lookup(conf, "enumValues").value, r.value.enumValues)
  {
    var fields :- ReadSlot(conf, "fields", MakeField);
    var inputFields :- ReadSlot(conf, "inputFields", MakeInputValue);
    var interfaces :- ReadSlot(conf, "interfaces", MakeTypeRef);
    var possibleTypes :- ReadSlot(conf, "possibleTypes", MakeTypeRef);
    var enumValues :- ReadSlot(conf, "enumValues", MakeEnumValue);
    Returned(Slots(fields, inputFields, interfaces, possibleTypes, enumValues))
  }

  /** `_deserialize_type(conf)`. */
  function DeserializeType(conf: PyValue): (r: Raising<RawType>)
    ensures !conf.PDict? ==> r == Raised(TypeError)
    ensures r.Returned? ==> Lookup(conf, "name") == Some(r.value.name) && Lookup(conf, "description") == Some(r.value.desc)
    ensures r.Returned? ==> Lookup(conf, "kind").Some? && ParseKind(Lookup(conf, "kind").value) == Returned(r.value.kind)
    ensures r.Returned? ==> ReadSlots(conf) == Returned(Slots(r.value.fields, r.value.inputFields, r.value.interfaces,
                                                              r.value.possibleTypes, r.value.enumValues))
  {
    var name :- Item(conf, "name");
    var kindValue :- Item(conf, "kind");
    var kind :- ParseKind(kindValue);
    var desc :- Item(conf, "description");
    var slots :- ReadSlots(conf);
    Returned(RawType(name, kind, desc, slots.fields, slots.inputFields, slots.interfaces, slots.possibleTypes, slots.enumValues))
  }

  /** A record missing any of the keys `_deserialize_type` reads is rejected. */
  lemma DeserializeNeedsKeys(conf: PyValue, key: string)
    requires key in TypeKeys && Lookup(conf, key).None?
    ensures DeserializeType(conf).Raised?
  {
  }
}
