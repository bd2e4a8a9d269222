/**
 From example messages to device-type content variables (pkg/connector/device.go,
 valueToContentVariable and zigbeeDeviceToDeviceType). A null value makes the Go code
 panic (reflect.TypeOf(nil) has no String); the model returns None there.
 */
module ContentVariables {
  import opened Common
  import opened Exposes
  import opened FeatureTree
  import DeviceLoop
  import DeviceTypes

  datatype Type = StringType | FloatType | BooleanType | ListType | StructureType

  datatype ContentVariable = ContentVariable(name: string, kind: Type, sub: seq<ContentVariable>)

  // ---------- strconv.Itoa ----------

  function Digit(d: nat): char
    requires d < 10
  {
    "0123456789"[d]
  }

  function Itoa(n: nat): (s: string)
    ensures |s| > 0
  {
    if n < 10 then [Digit(n)] else Itoa(n / 10) + [Digit(n % 10)]
  }

  /** The number a text of decimal digits stands for. */
  function Decimal(s: string): int {
    if s == "" then 0 else 10 * Decimal(s[..|s| - 1]) + (s[|s| - 1] as int - '0' as int)
  }

  /** The text has only digits, stands for the number, and has no leading zero except for "0". */
  lemma {:induction false} ItoaMeaning(n: nat)
    ensures forall c | c in Itoa(n) :: '0' <= c <= '9'
    ensures Decimal(Itoa(n)) == n
    ensures |Itoa(n)| > 1 ==> Itoa(n)[0] != '0'
  {
    DigitMeaning(n % 10);
    if n >= 10 {
      ItoaMeaning(n / 10);
      var s := Itoa(n / 10);
      assert Itoa(n)[..|s|] == s;
      if |s| == 1 {
        assert Decimal(s[..0]) == 0;
        assert s[0] != '0';
      }
    } else {
      assert Itoa(n)[..0] == "";
    }
  }

  lemma DigitMeaning(d: nat)
    requires d < 10
    ensures '0' <= Digit(d) <= '9' && Digit(d) as int - '0' as int == d
  {
    var digits := "0123456789";
    assert forall i | 0 <= i < 10 :: digits[i] as int - '0' as int == i;
  }

  lemma {:induction false} ItoaInjective(m: nat, n: nat)
    requires Itoa(m) == Itoa(n)
    ensures m == n
  {
    var s := Itoa(m);
    if m < 10 && n < 10 {
      DigitInjective(m, n);
    } else if m >= 10 && n >= 10 {
      assert Itoa(m / 10) == s[..|s| - 1] && Itoa(n / 10) == s[..|s| - 1];
      ItoaInjective(m / 10, n / 10);
      assert Digit(m % 10) == s[|s| - 1] && Digit(n % 10) == s[|s| - 1];
      DigitInjective(m % 10, n % 10);
    } else {
      // the two texts have different lengths
    }
  }

  lemma DigitInjective(a: nat, b: nat)
    requires a < 10 && b < 10 && Digit(a) == Digit(b)
    ensures a == b
  {
    var digits := "0123456789";
    assert forall i, j | 0 <= i < j < 10 :: digits[i] != digits[j];
  }

  // ---------- the translation ----------

  function KindOf(v: Json): Type
    requires v != Null
  {
    match v
    case String(_) => StringType
    case Number(_) => FloatType
    case Bool(_) => BooleanType
    case Array(_) => ListType
    case Object(_) => StructureType
  }

  /** `cv` is a schema of `v`: Go fixes the order of list children, and leaves the order of struct children open. */
  ghost predicate Describes(cv: ContentVariable, name: string, v: Json)
    decreases cv
  {
    && cv.name == name
    && v != Null && cv.kind == KindOf(v)
    && match v
       case Array(items) =>
         && |cv.sub| == |items|
         && forall i | 0 <= i < |items| :: Describes(cv.sub[i], Itoa(i), items[i])
       case Object(fields) =>
         && (forall i, j | 0 <= i < j < |cv.sub| :: cv.sub[i].name != cv.sub[j].name)
         && (forall i | 0 <= i < |cv.sub| :: cv.sub[i].name in fields && Describes(cv.sub[i], cv.sub[i].name, fields[cv.sub[i].name]))
         && (forall k | k in fields :: exists i :: 0 <= i < |cv.sub| && cv.sub[i].name == k)
       case _ => cv.sub == []
  }

  /** The translation fails exactly on a value with a null somewhere. */
  method ValueToContentVariable(name: string, data: Json) returns (r: Option<ContentVariable>)
    ensures r.Some? <==> NullFree(data)
    ensures r.Some? ==> Describes(r.value, name, data)
    decreases data, 1
  {
    match data
    case String(_) => r := Some(ContentVariable(name, StringType, []));
    case Number(_) => r := Some(ContentVariable(name, FloatType, []));
    case Bool(_) => r := Some(ContentVariable(name, BooleanType, []));
    case Null => r := None;
    case Array(items) =>
      var sub := [];
      for i := 0 to |items|
        invariant |sub| == i
        invariant forall j | 0 <= j < i :: NullFree(items[j]) && Describes(sub[j], Itoa(j), items[j])
      {
        var child := ValueToContentVariable(Itoa(i), items[i]);
        if child.None? {
          return None;
        }
        sub := sub + [child.value];
      }
      r := Some(ContentVariable(name, ListType, sub));
    case Object(fields) =>
      var sub := FieldsToContentVariables(data, fields);
      if sub.None? {
        return None;
      }
      r := Some(ContentVariable(name, StructureType, sub.value));
  }

  /** The children of a structure, in the order of the map iteration. */
  method FieldsToContentVariables(data: Json, fields: map<string, Json>) returns (r: Option<seq<ContentVariable>>)
    requires data == Object(fields)
    ensures r.Some? <==> NullFree(data)
    ensures r.Some? ==> Children(r.value, fields, fields.Keys)
    decreases data, 0
  {
    var sub := [];
    var keys := fields.Keys;
    while keys != {}
      invariant keys <= fields.Keys
      invariant Children(sub, fields, fields.Keys - keys)
      invariant forall k | k in fields.Keys - keys :: NullFree(fields[k])
    {
      var k :| k in keys;
      var child := ValueToContentVariable(k, fields[k]);
      if child.None? {
        return None;
      }
      ChildrenAppend(sub, fields, fields.Keys - keys, child.value);
      sub := sub + [child.value];
      assert fields.Keys - (keys - {k}) == fields.Keys - keys + {k};
      keys := keys - {k};
    }
    assert fields.Keys - keys == fields.Keys;
    r := Some(sub);
  }

  /** `sub` describes the fields named in `keys`, each once. */
  ghost predicate Children(sub: seq<ContentVariable>, fields: map<string, Json>, keys: set<string>) {
    && (forall i, j | 0 <= i < j < |sub| :: sub[i].name != sub[j].name)
    && (forall i | 0 <= i < |sub| :: sub[i].name in keys && sub[i].name in fields && Describes(sub[i], sub[i].name, fields[sub[i].name]))
    && (forall k | k in keys :: exists i :: 0 <= i < |sub| && sub[i].name == k)
  }

  lemma ChildrenAppend(sub: seq<ContentVariable>, fields: map<string, Json>, keys: set<string>, child: ContentVariable)
    requires Children(sub, fields, keys) && child.name !in keys && child.name in fields
    requires Describes(child, child.name, fields[child.name])
    ensures Children(sub + [child], fields, keys + {child.name})
  {
    var more := sub + [child];
    forall k | k in keys + {child.name}
      ensures exists i :: 0 <= i < |more| && more[i].name == k
    {
      if k == child.name {
        assert more[|sub|].name == k;
      } else {
        var i :| 0 <= i < |sub| && sub[i].name == k;
        assert more[i].name == k;
      }
    }
  }

  // ---------- the schema has exactly the value's paths ----------

  /** The value at a path of keys and decimal indexes. */
  ghost function At(v: Json, path: seq<string>): Option<Json>
    decreases path
  {
    if path == [] then Some(v)
    else
      match v
      case Array(items) =>
        if exists i :: 0 <= i < |items| && Itoa(i) == path[0]
        then var i :| 0 <= i < |items| && Itoa(i) == path[0]; At(items[i], path[1..])
        else None
      case Object(fields) => if path[0] in fields then At(fields[path[0]], path[1..]) else None
      case _ => None
  }

  ghost function SchemaAt(cv: ContentVariable, path: seq<string>): Option<Type>
    decreases path
  {
    if path == [] then Some(cv.kind)
    else if exists i :: 0 <= i < |cv.sub| && cv.sub[i].name == path[0]
    then var i :| 0 <= i < |cv.sub| && cv.sub[i].name == path[0]; SchemaAt(cv.sub[i], path[1..])
    else None
  }

  /** A schema has exactly the paths of its value, with the value's types. */
  lemma {:induction false} SchemaPaths(cv: ContentVariable, name: string, v: Json, path: seq<string>)
    requires Describes(cv, name, v)
    ensures SchemaAt(cv, path).Some? <==> At(v, path).Some?
    ensures At(v, path).Some? ==> At(v, path).value != Null && SchemaAt(cv, path).value == KindOf(At(v, path).value)
    decreases path
  {
    if path != [] {
      match v
      case Array(items) =>
        ListChild(cv, name, items, path[0]);
        if i :| 0 <= i < |items| && Itoa(i) == path[0] {
          IndexUnique(items, cv, path, i);
          SchemaPaths(cv.sub[i], Itoa(i), items[i], path[1..]);
        }
      case Object(fields) =>
        if path[0] in fields {
          var i :| 0 <= i < |cv.sub| && cv.sub[i].name == path[0];
          NameUnique(cv, path, i);
          SchemaPaths(cv.sub[i], path[0], fields[path[0]], path[1..]);
        }
      case _ =>
    }
  }

  /** The type at each path, by the kind of the value there. */
  lemma SchemaTypes(cv: ContentVariable, name: string, v: Json, path: seq<string>)
    requires Describes(cv, name, v) && At(v, path).Some?
    ensures SchemaAt(cv, path).Some?
    ensures match At(v, path).value
            case String(_) => SchemaAt(cv, path) == Some(StringType)
            case Number(_) => SchemaAt(cv, path) == Some(FloatType)
            case Bool(_) => SchemaAt(cv, path) == Some(BooleanType)
            case Array(_) => SchemaAt(cv, path) == Some(ListType)
            case Object(_) => SchemaAt(cv, path) == Some(StructureType)
            case Null => false
  {
    SchemaPaths(cv, name, v, path);
  }

  lemma ListChild(cv: ContentVariable, name: string, items: seq<Json>, key: string)
    requires Describes(cv, name, Array(items))
    ensures forall i | 0 <= i < |items| :: cv.sub[i].name == Itoa(i)
    ensures (exists i :: 0 <= i < |cv.sub| && cv.sub[i].name == key) <==> exists i :: 0 <= i < |items| && Itoa(i) == key
  {
    forall i | 0 <= i < |items| ensures cv.sub[i].name == Itoa(i) { assert Describes(cv.sub[i], Itoa(i), items[i]); }
  }

  lemma IndexUnique(items: seq<Json>, cv: ContentVariable, path: seq<string>, i: nat)
    requires path != [] && i < |items| == |cv.sub| && Itoa(i) == path[0]
    requires forall j | 0 <= j < |items| :: cv.sub[j].name == Itoa(j)
    ensures At(Array(items), path) == At(items[i], path[1..])
    ensures SchemaAt(cv, path) == SchemaAt(cv.sub[i], path[1..])
  {
    forall j | 0 <= j < |items| && Itoa(j) == path[0] ensures j == i { ItoaInjective(i, j); }
    assert cv.sub[i].name == path[0];
  }

  lemma NameUnique(cv: ContentVariable, path: seq<string>, i: nat)
    requires path != [] && i < |cv.sub| && cv.sub[i].name == path[0]
    requires forall j | 0 <= j < |cv.sub| && cv.sub[j].name == path[0] :: j == i
    ensures SchemaAt(cv, path) == SchemaAt(cv.sub[i], path[1..])
  {
  }

  /** A definition without accessible gaps never makes the translation of its example message fail. */
  method DescribeMessage(features: seq<Feature>, access: nat) returns (cv: ContentVariable)
    requires Exemplary(features, access)
    ensures Describes(cv, "value", Object(MessageOf(features, access)))
  {
    var message := GetZigbeeMessageStructOfFeatureList(features, access);
    MessageNullFree(features, access);
    var r := ValueToContentVariable("value", Object(message));
    cv := r.value;
  }

  // ---------- the device type of a device ----------

  datatype DraftService = DraftService(localId: string, content: ContentVariable)

  datatype Draft = Draft(attributes: seq<Attribute>, services: seq<DraftService>)

  /** No service for an empty message, else one service whose content describes the example. */
  ghost predicate IsPart(part: seq<DraftService>, localId: string, message: Message) {
    if message == map[] then part == []
    else |part| == 1 && part[0].localId == localId && Describes(part[0].content, "value", Object(message))
  }

  ghost predicate IsDraft(draft: Draft, d: Device) {
    && draft.attributes == DeviceTypes.CreationAttributes(d)
    && exists setPart, getPart ::
         && draft.services == setPart + getPart
         && IsPart(setPart, "set", MessageOf(d.definition.exposes, SET_ACCESS))
         && IsPart(getPart, "get", MessageOf(d.definition.exposes, EVENT_ACCESS))
  }

  method ServicesFor(localId: string, message: Message) returns (r: Option<seq<DraftService>>)
    ensures r.Some? <==> NullFree(Object(message))
    ensures r.Some? ==> IsPart(r.value, localId, message)
  {
    if |message| == 0 {
      return Some([]);
    }
    var content := ValueToContentVariable("value", Object(message));
    if content.None? {
      return None;
    }
    r := Some([DraftService(localId, content.value)]);
  }

  /** The draft describes the messages the device takes and sends; it cannot be made iff one of them holds a null. */
  method ZigbeeDeviceToDeviceType(d: Device) returns (r: Option<Draft>)
    ensures r.Some? <==> NullFree(Object(MessageOf(d.definition.exposes, SET_ACCESS)))
                         && NullFree(Object(MessageOf(d.definition.exposes, EVENT_ACCESS)))
    ensures r.Some? ==> IsDraft(r.value, d)
  {
    var output := GetZigbeeMessageStructOfFeatureList(d.definition.exposes, EVENT_ACCESS);
    var input := GetZigbeeMessageStructOfFeatureList(d.definition.exposes, SET_ACCESS);
    var setPart := ServicesFor("set", input);
    if setPart.None? {
      return None;
    }
    var getPart := ServicesFor("get", output);
    if getPart.None? {
      return None;
    }
    r := Some(Draft(DeviceTypes.CreationAttributes(d), setPart.value + getPart.value));
  }

  ghost predicate Offers(services: seq<DraftService>, localId: string) {
    exists i :: 0 <= i < |services| && services[i].localId == localId
  }

  lemma PartOffers(part: seq<DraftService>, localId: string, message: Message)
    requires IsPart(part, localId, message)
    ensures part == [] <==> message == map[]
    ensures Offers(part, localId) <==> part != []
    ensures forall other :: Offers(part, other) ==> other == localId
  {
    if part != [] {
      assert part[0].localId == localId;
    }
  }

  lemma OffersEither(a: seq<DraftService>, b: seq<DraftService>, localId: string)
    ensures Offers(a + b, localId) <==> Offers(a, localId) || Offers(b, localId)
  {
    if i :| 0 <= i < |a| && a[i].localId == localId {
      assert (a + b)[i].localId == localId;
    }
    if i :| 0 <= i < |b| && b[i].localId == localId {
      assert (a + b)[|a| + i].localId == localId;
    }
    if i :| 0 <= i < |a + b| && (a + b)[i].localId == localId {
      if i >= |a| { assert b[i - |a|].localId == localId; } else { assert a[i].localId == localId; }
    }
  }

  lemma GivenIffLive(features: seq<Feature>, mask: nat)
    ensures MessageOf(features, mask) != map[] <==> AnyLive(features, mask)
  {
    KeysIffLive(features, mask);
    EmptyIffNoKeys(features, mask);
  }

  /** There is a "set" service iff some node can be set, and a "get" service iff some node is published. */
  lemma DraftServices(draft: Draft, d: Device)
    requires IsDraft(draft, d)
    ensures draft.attributes == [Attribute("senergy/zigbee-dc", "true"),
                                 Attribute("senergy/zigbee-vendor", d.definition.vendor),
                                 Attribute("senergy/zigbee-model", d.definition.model)]
    ensures Offers(draft.services, "set") <==> AnyLive(d.definition.exposes, 2)
    ensures Offers(draft.services, "get") <==> AnyLive(d.definition.exposes, 1)
  {
    var input, output := MessageOf(d.definition.exposes, 2), MessageOf(d.definition.exposes, 1);
    var setPart, getPart :| draft.services == setPart + getPart && IsPart(setPart, "set", input) && IsPart(getPart, "get", output);
    GivenIffLive(d.definition.exposes, 2);
    GivenIffLive(d.definition.exposes, 1);
    PartOffers(setPart, "set", input);
    PartOffers(getPart, "get", output);
    OffersEither(setPart, getPart, "set");
    OffersEither(setPart, getPart, "get");
    assert "set"[0] != "get"[0];
  }

  /** A device of which no node has the settable bit gets no "set" service. */
  lemma PureSensorHasNoSet(draft: Draft, d: Device)
    requires IsDraft(draft, d)
    requires forall path :: NodeAt(d.definition.exposes, path).Some? ==> (NodeAt(d.definition.exposes, path).value.access / 2) % 2 == 0
    ensures !Offers(draft.services, "set")
  {
    DraftServices(draft, d);
    if AnyLive(d.definition.exposes, 2) {
      var path :| NodeAt(d.definition.exposes, path).Some? && Live(NodeAt(d.definition.exposes, path).value, 2);
      AccessBits(NodeAt(d.definition.exposes, path).value.access);
    }
  }

  /** For every definition, when a draft can be made: what is left at each key of its two messages is clean. */
  lemma CreatableExactly(d: Device)
    ensures NullFree(Object(MessageOf(d.definition.exposes, SET_ACCESS))) && NullFree(Object(MessageOf(d.definition.exposes, EVENT_ACCESS)))
       <==> forall mask, p | mask in {SET_ACCESS, EVENT_ACCESS} && p in Keys(d.definition.exposes, mask) ::
              Clean(d.definition.exposes, p, None, mask)
  {
    NullFreeExactly(d.definition.exposes, SET_ACCESS);
    NullFreeExactly(d.definition.exposes, EVENT_ACCESS);
  }

  /** Where nothing is overwritten: nothing accessible lacks an example. */
  lemma CreatableIff(d: Device)
    requires Separate(d.definition.exposes, SET_ACCESS) && Separate(d.definition.exposes, EVENT_ACCESS)
    ensures NullFree(Object(MessageOf(d.definition.exposes, SET_ACCESS))) && NullFree(Object(MessageOf(d.definition.exposes, EVENT_ACCESS)))
       <==> Exemplary(d.definition.exposes, SET_ACCESS) && Exemplary(d.definition.exposes, EVENT_ACCESS)
  {
    NullFreeIff(d.definition.exposes, SET_ACCESS);
    NullFreeIff(d.definition.exposes, EVENT_ACCESS);
  }

  /** A valid device for which creating a device type panics: its only feature is a settable enum without values. */
  lemma CreationCanPanic() returns (d: Device)
    ensures DeviceLoop.IsValidDevice(d)
    ensures !NullFree(Object(MessageOf(d.definition.exposes, SET_ACCESS)))
  {
    var mode := Feature("enum", "mode", 2, [], None, [], 0.0, Null);
    d := Device("0x1", "fan", true, false, true, Definition("v", "m", [mode]));
    var exposes := d.definition.exposes;
    assert exposes[..0] == [] && MessageOf(exposes[..0], SET_ACCESS) == map[];
    assert LeafValue(mode, SET_ACCESS) == Some(Null);
    assert MessageOf(exposes, SET_ACCESS) == map["mode" := Null];
    assert map["mode" := Null]["mode"] == Null;
  }
}
