/** The device repository as it runs: the fields of DeviceRepo updated in place by its methods. */
module DeviceRepository {
  import opened Common
  import opened TypeKeys
  import opened DeviceTypes

  method GetDeviceTypeById(types: seq<DeviceType>, id: string) returns (r: Option<DeviceType>)
    ensures forall norm :: r == Search(types, ById(id), norm)
  {
    for i := 0 to |types|
      invariant forall norm :: Search(types, ById(id), norm) == Search(types[i..], ById(id), norm)
    {
      assert types[i..][1..] == types[i + 1..];
      if types[i].id == id {
        return Some(types[i]);
      }
    }
    r := None;
  }

  /** The values of the attributes by key, normalised. */
  method AttributeMap(attributes: seq<Attribute>, norm: string -> string) returns (attrMap: map<string, seq<string>>)
    ensures forall k, v: string :: k in attrMap && norm(v) in attrMap[k] <==> HasAttribute(attributes, k, v, norm)
  {
    attrMap := map[];
    for i := 0 to |attributes|
      invariant forall k, v: string :: k in attrMap && norm(v) in attrMap[k] <==> HasAttribute(attributes[..i], k, v, norm)
    {
      var attr := attributes[i];
      var values := if attr.key in attrMap then attrMap[attr.key] else [];
      ghost var before := attrMap;
      attrMap := attrMap[attr.key := values + [norm(attr.value)]];
      forall k, v: string
        ensures k in attrMap && norm(v) in attrMap[k] <==> HasAttribute(attributes[..i + 1], k, v, norm)
      {
        HasAttributeSnoc(attributes, i, k, v, norm);
        assert k in before && norm(v) in before[k] <==> HasAttribute(attributes[..i], k, v, norm);
      }
    }
    assert attributes[..|attributes|] == attributes;
  }

  lemma HasAttributeSnoc(attributes: seq<Attribute>, i: nat, k: string, v: string, norm: string -> string)
    requires i < |attributes|
    ensures HasAttribute(attributes[..i + 1], k, v, norm)
       <==> HasAttribute(attributes[..i], k, v, norm) || (attributes[i].key == k && norm(attributes[i].value) == norm(v))
  {
    var longer := attributes[..i + 1];
    assert longer[i] == attributes[i];
    if HasAttribute(attributes[..i], k, v, norm) {
      var j :| 0 <= j < i && attributes[..i][j].key == k && norm(attributes[..i][j].value) == norm(v);
      assert longer[j] == attributes[..i][j];
    }
    if HasAttribute(longer, k, v, norm) {
      var j :| 0 <= j < i + 1 && longer[j].key == k && norm(longer[j].value) == norm(v);
      if j < i {
        assert attributes[..i][j] == longer[j];
      }
    }
  }

  method GetMatchingDeviceType(types: seq<DeviceType>, device: Device, norm: string -> string) returns (r: Option<DeviceType>)
    ensures r == Search(types, ForDevice(device), norm)
    ensures r.Some? ==> Carries(r.value, device, norm)
    ensures r.None? ==> forall k | 0 <= k < |types| :: !Carries(types[k], device, norm)
  {
    SearchForDevice(types, device, norm);
    for i := 0 to |types|
      invariant Search(types, ForDevice(device), norm) == Search(types[i..], ForDevice(device), norm)
    {
      assert types[i..][1..] == types[i + 1..];
      var attrMap := AttributeMap(types[i].attributes, norm);
      if VENDOR in attrMap && norm(device.definition.vendor) in attrMap[VENDOR] {
        if MODEL in attrMap && norm(device.definition.model) in attrMap[MODEL] {
          return Some(types[i]);
        }
      }
    }
    r := None;
  }

  class DeviceRepo {
    const horizon: Horizon
    var deviceTypes: seq<DeviceType>
    var lastDtRefresh: Stamp
    var createdDt: map<string, DeviceType>
    var deviceDeviceTypeIdCache: map<string, string>
    /** The successful loads so far. */
    ghost var loads: seq<int>

    ghost function Abs(): Repo
      reads this
    {
      Repo(deviceTypes, lastDtRefresh, createdDt, deviceDeviceTypeIdCache)
    }

    constructor (horizon: Horizon)
      ensures Abs() == EMPTY_REPO && loads == [] && this.horizon == horizon
    {
      this.horizon := horizon;
      deviceTypes := [];
      lastDtRefresh := Never;
      createdDt := map[];
      deviceDeviceTypeIdCache := map[];
      loads := [];
    }

    method RefreshDeviceTypeList(l: Load) returns (err: Option<string>)
      modifies `deviceTypes, `lastDtRefresh, `loads
      ensures Abs() == Refreshed(old(Abs()), l) && loads == old(loads) + LoadStamps(l)
      ensures err == if l.result.Err? then Some(l.result.error) else None
    {
      match l.result
      case Err(message) =>
        return Some(message);
      case Ok(list) =>
        deviceTypes := list;
        lastDtRefresh := At(l.stamp);
        loads := loads + [l.stamp];
        err := None;
    }

    method ListZigbeeDeviceTypes(now: int, l: Load) returns (list: Result<seq<DeviceType>, string>)
      modifies `deviceTypes, `lastDtRefresh, `loads
      ensures var (r, stamps, ok) := Listed(horizon, old(Abs()), now, l);
        && Abs() == r && loads == old(loads) + stamps
        && list == if ok then Ok(r.types) else Err(l.result.error)
    {
      if Older(lastDtRefresh, now, horizon.max) {
        var err := RefreshDeviceTypeList(l);
        if err.Some? {
          return Err(err.value);
        }
      }
      list := Ok(deviceTypes);
    }

    method GetDeviceType(id: string, c: Call, ghost norm: string -> string) returns (answer: Verdict)
      modifies `deviceTypes, `lastDtRefresh, `loads
      ensures var o := Lookup(horizon, old(Abs()), ById(id), norm, c);
        Abs() == o.repo && loads == old(loads) + o.loads && answer == o.answer
    {
      var list := ListZigbeeDeviceTypes(c.t1, c.l1);
      if list.Err? {
        return Failed(list.error);
      }
      var found := GetDeviceTypeById(list.value, id);
      if found.None? && Older(lastDtRefresh, c.t2, horizon.min) {
        var err := RefreshDeviceTypeList(c.l2);
        if err.Some? {
          return Failed(err.value);
        }
        list := ListZigbeeDeviceTypes(c.t3, c.l3);
        if list.Err? {
          return Failed(list.error);
        }
        found := GetDeviceTypeById(list.value, id);
      }
      if found.None? {
        return NoMatch;
      }
      answer := Found(found.value);
    }

    method FindDeviceType(device: Device, c: Call, norm: string -> string) returns (answer: Verdict)
      modifies `deviceTypes, `lastDtRefresh, `loads
      ensures var o := Lookup(horizon, old(Abs()), ForDevice(device), norm, c);
        Abs() == o.repo && loads == old(loads) + o.loads && answer == o.answer
    {
      var list := ListZigbeeDeviceTypes(c.t1, c.l1);
      if list.Err? {
        return Failed(list.error);
      }
      var found := GetMatchingDeviceType(list.value, device, norm);
      if found.None? && Older(lastDtRefresh, c.t2, horizon.min) {
        var err := RefreshDeviceTypeList(c.l2);
        if err.Some? {
          return Failed(err.value);
        }
        list := ListZigbeeDeviceTypes(c.t3, c.l3);
        if list.Err? {
          return Failed(list.error);
        }
        found := GetMatchingDeviceType(list.value, device, norm);
      }
      if found.None? {
        return NoMatch;
      }
      answer := Found(found.value);
    }

    /** Its own copy of the search, as in the source; the id it answers is that of FindDeviceType's type. */
    method FindDeviceTypeId(device: Device, c: Call, norm: string -> string) returns (answer: Result<string, Verdict>)
      modifies `deviceTypes, `lastDtRefresh, `loads
      ensures var o := Lookup(horizon, old(Abs()), ForDevice(device), norm, c);
        && Abs() == o.repo && loads == old(loads) + o.loads
        && answer == if o.answer.Found? then Ok(o.answer.deviceType.id) else Err(o.answer)
    {
      var list := ListZigbeeDeviceTypes(c.t1, c.l1);
      if list.Err? {
        return Err(Failed(list.error));
      }
      var found := GetMatchingDeviceType(list.value, device, norm);
      if found.None? && Older(lastDtRefresh, c.t2, horizon.min) {
        var err := RefreshDeviceTypeList(c.l2);
        if err.Some? {
          return Err(Failed(err.value));
        }
        list := ListZigbeeDeviceTypes(c.t3, c.l3);
        if list.Err? {
          return Err(Failed(list.error));
        }
        found := GetMatchingDeviceType(list.value, device, norm);
      }
      if found.None? {
        return Err(NoMatch);
      }
      answer := Ok(found.value.id);
    }

    method GetKnownDeviceDeviceTypeId(deviceId: string, reply: Reply) returns (answer: Result<Option<string>, string>)
      modifies `deviceDeviceTypeIdCache
      ensures Abs() == AfterKnown(old(Abs()), deviceId, reply)
      ensures answer == KnownId(old(Abs()), deviceId, reply)
    {
      if deviceId in deviceDeviceTypeIdCache {
        return Ok(Some(deviceDeviceTypeIdCache[deviceId]));
      }
      match reply
      case Unreachable(message) =>
        return Err(message);
      case Unregistered =>
        return Ok(None);
      case Registered(id) =>
        deviceDeviceTypeIdCache := deviceDeviceTypeIdCache[deviceId := id];
        answer := Ok(Some(id));
    }

    method CreateDeviceTypeWithDistinctAttributes(attributes: seq<Attribute>, post: Result<DeviceType, string>)
      returns (answer: Result<DeviceType, string>)
      modifies `lastDtRefresh, `createdDt
      ensures Abs() == AfterCreate(old(Abs()), attributes, post)
      ensures answer == CreateAnswer(old(Abs()), attributes, post)
    {
      var key := GetDtVendorModelKey(attributes);
      if key in createdDt {
        return Ok(createdDt[key]);
      }
      lastDtRefresh := Never;
      if post.Err? {
        return post;
      }
      createdDt := createdDt[key := post.value];
      answer := post;
    }

    /** The connector's getDeviceTypeId, used to register a device. */
    method GetDeviceTypeId(deviceId: string, device: Device, norm: string -> string, reply: Reply, c: Call)
      returns (answer: Result<string, Verdict>)
      modifies this
      ensures var t := RegisteredTypeId(horizon, old(Abs()), deviceId, device, norm, reply, c);
        Abs() == t.repo && answer == t.answer && loads == old(loads) + t.loads
    {
      var known := GetKnownDeviceDeviceTypeId(deviceId, reply);
      if known.Err? {
        return Err(Failed(known.error));
      }
      if known.value.Some? {
        return Ok(known.value.value);
      }
      answer := FindDeviceTypeId(device, c, norm);
    }

    /** The connector's getEventDeviceType, used to select the services of an event. */
    method GetEventDeviceType(deviceId: string, device: Device, norm: string -> string, reply: Reply, c: Call, c': Call)
      returns (answer: Verdict)
      modifies this
      ensures var o := EventType(horizon, old(Abs()), deviceId, device, norm, reply, c, c');
        Abs() == o.repo && answer == o.answer && loads == old(loads) + o.loads
    {
      var known := GetKnownDeviceDeviceTypeId(deviceId, reply);
      if known.Ok? && known.value.Some? {
        answer := GetTypeByIdElseMatch(known.value.value, device, norm, c, c');
        return;
      }
      answer := FindDeviceType(device, c', norm);
    }

    /** The part for known devices: a type that is not in the zigbee list is searched by vendor and model. */
    method GetTypeByIdElseMatch(id: string, device: Device, norm: string -> string, c: Call, c': Call) returns (answer: Verdict)
      modifies `deviceTypes, `lastDtRefresh, `loads
      ensures var o := ByIdElseMatch(horizon, old(Abs()), id, device, norm, c, c');
        Abs() == o.repo && loads == old(loads) + o.loads && answer == o.answer
    {
      answer := GetDeviceType(id, c, norm);
      if answer.NoMatch? {
        answer := FindDeviceType(device, c', norm);
      }
    }
  }
}
