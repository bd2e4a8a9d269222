/**
 The device-type repository of the connector (pkg/devicerepo): a timed list cache, the table of
 created types and the sticky table of known devices. Each call is one step; the clock readings
 and the answers of the platform within it are inputs.
 */
module DeviceTypes {
  import opened Common
  import opened TypeKeys
  import DeviceLoop

  /** The zero time is older than any duration Go can hold. */
  datatype Stamp = Never | At(t: int)

  datatype Horizon = Horizon(min: int, max: int)

  predicate Older(stamp: Stamp, now: int, duration: int) {
    stamp.Never? || now - stamp.t > duration
  }

  datatype Repo = Repo(types: seq<DeviceType>, refreshed: Stamp, created: map<string, DeviceType>, known: map<string, string>)

  const EMPTY_REPO := Repo([], Never, map[], map[])

  // ---------- searching the list ----------

  predicate HasAttribute(attributes: seq<Attribute>, key: string, value: string, norm: string -> string) {
    exists i :: 0 <= i < |attributes| && attributes[i].key == key && norm(attributes[i].value) == norm(value)
  }

  /** `norm` is lower-casing after trimming. */
  predicate MatchesDevice(dt: DeviceType, d: Device, norm: string -> string) {
    HasAttribute(dt.attributes, VENDOR, d.definition.vendor, norm) && HasAttribute(dt.attributes, MODEL, d.definition.model, norm)
  }

  /** The type has an attribute for the vendor of the device and one for its model, both equal after normalisation. */
  ghost predicate Carries(dt: DeviceType, d: Device, norm: string -> string) {
    && (exists i :: 0 <= i < |dt.attributes| && dt.attributes[i].key == "senergy/zigbee-vendor"
                    && norm(dt.attributes[i].value) == norm(d.definition.vendor))
    && (exists j :: 0 <= j < |dt.attributes| && dt.attributes[j].key == "senergy/zigbee-model"
                    && norm(dt.attributes[j].value) == norm(d.definition.model))
  }

  lemma MatchesIffCarries(dt: DeviceType, d: Device, norm: string -> string)
    ensures MatchesDevice(dt, d, norm) <==> Carries(dt, d, norm)
  {
  }

  datatype Query = ById(id: string) | ForDevice(device: Device)

  predicate Fits(q: Query, dt: DeviceType, norm: string -> string) {
    match q
    case ById(id) => dt.id == id
    case ForDevice(d) => MatchesDevice(dt, d, norm)
  }

  /** `dt` is the first element of the list that fits. */
  ghost predicate IsFirst(types: seq<DeviceType>, q: Query, norm: string -> string, dt: DeviceType) {
    exists i :: 0 <= i < |types| && types[i] == dt && Fits(q, dt, norm) && forall j | 0 <= j < i :: !Fits(q, types[j], norm)
  }

  function Search(types: seq<DeviceType>, q: Query, norm: string -> string): Option<DeviceType> {
    if types == [] then None
    else if Fits(q, types[0], norm) then Some(types[0])
    else Search(types[1..], q, norm)
  }

  lemma {:induction false} SearchMeaning(types: seq<DeviceType>, q: Query, norm: string -> string)
    ensures Search(types, q, norm).None? <==> forall i | 0 <= i < |types| :: !Fits(q, types[i], norm)
    ensures Search(types, q, norm).Some? ==> IsFirst(types, q, norm, Search(types, q, norm).value)
  {
    if types != [] {
      SearchMeaning(types[1..], q, norm);
      if Fits(q, types[0], norm) {
        assert types[0] == Search(types, q, norm).value;
      } else {
        assert forall i | 0 < i < |types| :: types[i] == types[1..][i - 1];
        if Search(types, q, norm).Some? {
          var dt := Search(types, q, norm).value;
          var i :| 0 <= i < |types[1..]| && types[1..][i] == dt && Fits(q, dt, norm) && forall j | 0 <= j < i :: !Fits(q, types[1..][j], norm);
          assert types[i + 1] == dt;
        }
      }
    }
  }

  /** The search for a device answers the first listed type that carries its vendor and its model, and none iff no listed type does. */
  lemma SearchForDevice(types: seq<DeviceType>, d: Device, norm: string -> string)
    ensures var r := Search(types, ForDevice(d), norm);
      && (r.None? <==> forall k | 0 <= k < |types| :: !Carries(types[k], d, norm))
      && (r.Some? ==> Carries(r.value, d, norm)
                      && exists k :: 0 <= k < |types| && types[k] == r.value && forall j | 0 <= j < k :: !Carries(types[j], d, norm))
  {
    SearchMeaning(types, ForDevice(d), norm);
    forall k | 0 <= k < |types| ensures Fits(ForDevice(d), types[k], norm) <==> Carries(types[k], d, norm) {
      MatchesIffCarries(types[k], d, norm);
    }
    var r := Search(types, ForDevice(d), norm);
    if r.Some? {
      var k :| 0 <= k < |types| && types[k] == r.value && Fits(ForDevice(d), r.value, norm)
               && forall j | 0 <= j < k :: !Fits(ForDevice(d), types[j], norm);
      assert Carries(types[k], d, norm);
    }
  }

  /** A type of the same vendor for another model is no match. */
  lemma OtherModelIsNoMatch(norm: string -> string, d: Device)
    requires d.definition.vendor == "IKEA" && d.definition.model == "E2001" && norm("LED1545G12") != norm("E2001")
    ensures Search([DeviceType("bulb", [Attribute("senergy/zigbee-vendor", "IKEA"), Attribute("senergy/zigbee-model", "LED1545G12")], [])],
                   ForDevice(d), norm).None?
  {
    var bulb := DeviceType("bulb", [Attribute("senergy/zigbee-vendor", "IKEA"), Attribute("senergy/zigbee-model", "LED1545G12")], []);
    SearchForDevice([bulb], d, norm);
    assert |"senergy/zigbee-vendor"| != |"senergy/zigbee-model"|;
  }

  // ---------- a query, with the reloads it causes ----------

  datatype Load = Load(stamp: int, result: Result<seq<DeviceType>, string>)

  /** The clock readings of one query and, between them, what a load would bring at that moment. */
  datatype Call = Call(t1: int, l1: Load, t2: int, l2: Load, t3: int, l3: Load)

  /** The clock never goes back. */
  predicate Ordered(c: Call) {
    c.t1 <= c.l1.stamp <= c.t2 <= c.l2.stamp <= c.t3 <= c.l3.stamp
  }

  datatype Verdict = Found(deviceType: DeviceType) | NoMatch | Failed(message: string)

  datatype Outcome = Outcome(repo: Repo, answer: Verdict, loads: seq<int>)

  function Refreshed(r: Repo, l: Load): Repo {
    if l.result.Ok? then r.(types := l.result.value, refreshed := At(l.stamp)) else r
  }

  function LoadStamps(l: Load): seq<int> {
    if l.result.Ok? then [l.stamp] else []
  }

  /** ListZigbeeDeviceTypes: `answer` is Failed iff a reload was due and failed. */
  function Listed(h: Horizon, r: Repo, now: int, l: Load): (Repo, seq<int>, bool) {
    if Older(r.refreshed, now, h.max) then (Refreshed(r, l), LoadStamps(l), l.result.Ok?) else (r, [], true)
  }

  function AnswerOf(found: Option<DeviceType>): Verdict {
    if found.Some? then Found(found.value) else NoMatch
  }

  function Lookup(h: Horizon, r: Repo, q: Query, norm: string -> string, c: Call): Outcome {
    var (r1, loads1, ok1) := Listed(h, r, c.t1, c.l1);
    if !ok1 then Outcome(r, Failed(c.l1.result.error), [])
    else
      var found := Search(r1.types, q, norm);
      if found.Some? || !Older(r1.refreshed, c.t2, h.min) then Outcome(r1, AnswerOf(found), loads1)
      else if c.l2.result.Err? then Outcome(r1, Failed(c.l2.result.error), loads1)
      else
        var r2 := Refreshed(r1, c.l2);
        var (r3, loads3, ok3) := Listed(h, r2, c.t3, c.l3);
        if !ok3 then Outcome(r2, Failed(c.l3.result.error), loads1 + [c.l2.stamp])
        else Outcome(r3, AnswerOf(Search(r3.types, q, norm)), loads1 + [c.l2.stamp] + loads3)
  }

  lemma AnswerIsSearch(h: Horizon, r: Repo, q: Query, norm: string -> string, c: Call)
    ensures var o := Lookup(h, r, q, norm, c);
      && o.repo.created == r.created && o.repo.known == r.known
      && (!o.answer.Failed? ==> o.answer == AnswerOf(Search(o.repo.types, q, norm)))
  {
  }

  lemma AnswerAge(h: Horizon, r: Repo, q: Query, norm: string -> string, c: Call)
    requires 0 <= h.min <= h.max && Ordered(c)
    ensures var o := Lookup(h, r, q, norm, c);
      && (o.answer.Found? ==> o.repo.refreshed.At? && c.t1 - o.repo.refreshed.t <= h.max)
      && (o.answer.NoMatch? ==> o.repo.refreshed.At? && c.t2 - o.repo.refreshed.t <= h.min)
  {
  }

  /**
   What an answer is worth. A found type is the first fitting one of the list now cached, and that list
   was at most `max` old when the query began. A no-match holds for the whole list now cached, which
   was at most `min` old when the first search had failed. Neither touches the other two tables.
   */
  lemma AnswersAreFresh(h: Horizon, r: Repo, q: Query, norm: string -> string, c: Call)
    requires 0 <= h.min <= h.max && Ordered(c)
    ensures var o := Lookup(h, r, q, norm, c);
      && (o.answer.Found? ==>
            && IsFirst(o.repo.types, q, norm, o.answer.deviceType)
            && o.repo.refreshed.At? && c.t1 - o.repo.refreshed.t <= h.max)
      && (o.answer.NoMatch? ==>
            && (forall i | 0 <= i < |o.repo.types| :: !Fits(q, o.repo.types[i], norm))
            && o.repo.refreshed.At? && c.t2 - o.repo.refreshed.t <= h.min)
  {
    AnswerIsSearch(h, r, q, norm, c);
    AnswerAge(h, r, q, norm, c);
    SearchMeaning(Lookup(h, r, q, norm, c).repo.types, q, norm);
  }

  /**
   What a query for a device answers: the first type of the list then cached that carries its vendor and
   its model; and a no-match only if none in that list does.
   */
  lemma FindMeaning(h: Horizon, r: Repo, d: Device, norm: string -> string, c: Call)
    ensures var o := Lookup(h, r, ForDevice(d), norm, c);
      && (o.answer.Found? ==>
            && Carries(o.answer.deviceType, d, norm)
            && exists k :: 0 <= k < |o.repo.types| && o.repo.types[k] == o.answer.deviceType
                           && forall j | 0 <= j < k :: !Carries(o.repo.types[j], d, norm))
      && (o.answer.NoMatch? ==> forall k | 0 <= k < |o.repo.types| :: !Carries(o.repo.types[k], d, norm))
  {
    AnswerIsSearch(h, r, ForDevice(d), norm, c);
    SearchForDevice(Lookup(h, r, ForDevice(d), norm, c).repo.types, d, norm);
  }

  /**
   When a query loads first: at once iff there is no list or it is older than `max`. A list that is not is
   answered from as it is if it has a fitting type, and also if it has none but is not older than `min`.
   */
  lemma FirstLoad(h: Horizon, r: Repo, q: Query, norm: string -> string, c: Call)
    ensures var o := Lookup(h, r, q, norm, c);
      && (c.l1.result.Ok? && (r.refreshed.Never? || c.t1 - r.refreshed.t > h.max) ==> o.loads != [] && o.loads[0] == c.l1.stamp)
      && (r.refreshed.At? && c.t1 - r.refreshed.t <= h.max && Search(r.types, q, norm).Some? ==>
            o == Outcome(r, Found(Search(r.types, q, norm).value), []))
      && (r.refreshed.At? && c.t1 - r.refreshed.t <= h.max && Search(r.types, q, norm).None? && c.t2 - r.refreshed.t <= h.min ==>
            o == Outcome(r, NoMatch, []))
      && (r.refreshed.At? && c.t1 - r.refreshed.t <= h.max && Search(r.types, q, norm).None? && c.t2 - r.refreshed.t > h.min ==>
            c.l2.result.Ok? ==> o.loads != [] && o.loads[0] == c.l2.stamp)
  {
  }

  /** The first listing answered, the search missed, and the list was old enough to be reloaded. */
  predicate Forced(h: Horizon, r: Repo, q: Query, norm: string -> string, c: Call) {
    var (r1, _, ok1) := Listed(h, r, c.t1, c.l1);
    ok1 && Search(r1.types, q, norm).None? && Older(r1.refreshed, c.t2, h.min)
  }

  /** A query fails iff a load that was due failed: the first listing's, the forced one, or the second listing's. */
  lemma FailsIff(h: Horizon, r: Repo, q: Query, norm: string -> string, c: Call)
    ensures Lookup(h, r, q, norm, c).answer.Failed?
       <==> || (Older(r.refreshed, c.t1, h.max) && c.l1.result.Err?)
            || (Forced(h, r, q, norm, c)
                && (c.l2.result.Err? || (c.t3 - c.l2.stamp > h.max && c.l3.result.Err?)))
  {
  }

  /** A query that fails leaves the repository as the last successful load of the query, if any, left it. */
  lemma FailedLoadKeepsList(h: Horizon, r: Repo, q: Query, norm: string -> string, c: Call)
    requires Lookup(h, r, q, norm, c).answer.Failed?
    ensures var o := Lookup(h, r, q, norm, c);
      if o.loads == [] then o.repo == r
      else exists l | l in [c.l1, c.l2] ::
             l.result.Ok? && l.stamp == o.loads[|o.loads| - 1] && o.repo == r.(types := l.result.value, refreshed := At(l.stamp))
  {
    var o := Lookup(h, r, q, norm, c);
    if o.loads != [] {
      var l := if Forced(h, r, q, norm, c) && c.l2.result.Ok? then c.l2 else c.l1;
      assert l in [c.l1, c.l2];
    }
  }

  /**
   When a query loads at most once: unless its reload is forced and succeeds, and either the first
   listing had loaded already or the reloaded list is too old again at the second one.
   */
  lemma AtMostOneLoadIff(h: Horizon, r: Repo, q: Query, norm: string -> string, c: Call)
    ensures |Lookup(h, r, q, norm, c).loads| <= 1
       <==> !(&& Forced(h, r, q, norm, c) && c.l2.result.Ok?
              && (|| (Older(r.refreshed, c.t1, h.max) && c.l1.result.Ok?)
                  || (c.t3 - c.l2.stamp > h.max && c.l3.result.Ok?)))
  {
  }

  /** In particular a query that takes no longer than the shorter horizon does. */
  lemma AtMostOneLoad(h: Horizon, r: Repo, q: Query, norm: string -> string, c: Call)
    requires 0 <= h.min <= h.max && Ordered(c) && c.t3 - c.t1 <= h.min
    ensures |Lookup(h, r, q, norm, c).loads| <= 1
  {
    AtMostOneLoadIff(h, r, q, norm, c);
  }

  /** A slow query can load three times: after the forced reload the list is already too old again. */
  lemma SlowQueryLoadsThrice(norm: string -> string)
    ensures var none := Ok([]);
      Lookup(Horizon(1, 2), EMPTY_REPO, ById("x"), norm, Call(0, Load(0, none), 2, Load(2, none), 5, Load(5, none))).loads == [0, 2, 5]
  {
    assert Search([], ById("x"), norm).None?;
  }

  // ---------- known devices ----------

  /** What the platform says about a device: its type id, that it does not know it, or an error. */
  datatype Reply = Registered(typeId: string) | Unregistered | Unreachable(message: string)

  /** GetKnownDeviceDeviceTypeId: the id, or that there is none, or the error. */
  function KnownId(r: Repo, deviceId: string, reply: Reply): Result<Option<string>, string> {
    if deviceId in r.known then Ok(Some(r.known[deviceId]))
    else
      match reply
      case Registered(id) => Ok(Some(id))
      case Unregistered => Ok(None)
      case Unreachable(message) => Err(message)
  }

  function AfterKnown(r: Repo, deviceId: string, reply: Reply): Repo {
    if deviceId !in r.known && reply.Registered? then r.(known := r.known[deviceId := reply.typeId]) else r
  }

  /** A device not remembered is what the platform says it is, and remembered iff the platform knows it. */
  lemma KnownMeaning(r: Repo, deviceId: string, reply: Reply)
    ensures deviceId in r.known ==> KnownId(r, deviceId, reply) == Ok(Some(r.known[deviceId])) && AfterKnown(r, deviceId, reply) == r
    ensures deviceId !in r.known ==>
              match reply
              case Registered(id) =>
                KnownId(r, deviceId, reply) == Ok(Some(id)) && AfterKnown(r, deviceId, reply) == r.(known := r.known[deviceId := id])
              case Unregistered => KnownId(r, deviceId, reply) == Ok(None) && AfterKnown(r, deviceId, reply) == r
              case Unreachable(m) => KnownId(r, deviceId, reply) == Err(m) && AfterKnown(r, deviceId, reply) == r
  {
  }

  // ---------- creation ----------

  /** CreateDeviceTypeWithDistinctAttributes: a POST only for a key not created before. */
  function CreateAnswer(r: Repo, attributes: seq<Attribute>, post: Result<DeviceType, string>): Result<DeviceType, string> {
    var key := KeyOf(attributes);
    if key in r.created then Ok(r.created[key]) else post
  }

  /** The cached list is outdated as soon as a POST is tried, even if it fails. */
  function AfterCreate(r: Repo, attributes: seq<Attribute>, post: Result<DeviceType, string>): Repo {
    var key := KeyOf(attributes);
    if key in r.created then r
    else if post.Err? then r.(refreshed := Never)
    else r.(refreshed := Never, created := r.created[key := post.value])
  }

  // ---------- the connector's two uses ----------

  datatype Typed = Typed(repo: Repo, answer: Result<string, Verdict>, loads: seq<int>)

  /** getDeviceTypeId: the id of a known device, else that of the first match. */
  function RegisteredTypeId(h: Horizon, r: Repo, deviceId: string, d: Device, norm: string -> string, reply: Reply, c: Call): Typed {
    var known := KnownId(r, deviceId, reply);
    if known.Err? then Typed(r, Err(Failed(known.error)), [])
    else if known.value.Some? then Typed(AfterKnown(r, deviceId, reply), Ok(known.value.value), [])
    else
      var o := Lookup(h, r, ForDevice(d), norm, c);
      Typed(o.repo, if o.answer.Found? then Ok(o.answer.deviceType.id) else Err(o.answer), o.loads)
  }

  /** getEventDeviceType: a known device by its id; vendor and model decide only if that fails to match. */
  function EventType(h: Horizon, r: Repo, deviceId: string, d: Device, norm: string -> string, reply: Reply, c: Call, c': Call): Outcome {
    var known := KnownId(r, deviceId, reply);
    if known.Err? || known.value.None? then Lookup(h, r, ForDevice(d), norm, c')
    else
      ByIdElseMatch(h, AfterKnown(r, deviceId, reply), known.value.value, d, norm, c, c')
  }

  function ByIdElseMatch(h: Horizon, r: Repo, id: string, d: Device, norm: string -> string, c: Call, c': Call): Outcome {
    var o := Lookup(h, r, ById(id), norm, c);
    if !o.answer.NoMatch? then o
    else
      var o' := Lookup(h, o.repo, ForDevice(d), norm, c');
      Outcome(o'.repo, o'.answer, o.loads + o'.loads)
  }

  predicate Lists(types: seq<DeviceType>, id: string) {
    exists dt | dt in types :: dt.id == id
  }

  /** The first vendor and model match happens to be the type with the id. */
  predicate MatchHasId(types: seq<DeviceType>, d: Device, norm: string -> string, id: string) {
    var m := Search(types, ForDevice(d), norm);
    m.Some? && m.value.id == id
  }

  lemma SearchById(types: seq<DeviceType>, id: string, norm: string -> string)
    ensures Search(types, ById(id), norm).Some? <==> Lists(types, id)
    ensures Search(types, ById(id), norm).Some? ==> Search(types, ById(id), norm).value.id == id
  {
    SearchMeaning(types, ById(id), norm);
  }

  /**
   Registration and events agree. A device known to the repository is registered with its remembered id;
   if that id is in a cached list that is not outdated, its events get the type with that id, without a load.
   For an unknown device and the same cache, both take the first match of the same list.
   */
  lemma TypesAgree(h: Horizon, r: Repo, deviceId: string, d: Device, norm: string -> string, reply: Reply, c: Call, c': Call)
    requires KnownId(r, deviceId, reply).Ok?
    ensures var known := KnownId(r, deviceId, reply).value;
      && (known.Some? ==>
            && RegisteredTypeId(h, r, deviceId, d, norm, reply, c).answer == Ok(known.value)
            && (!Older(r.refreshed, c.t1, h.max) && Lists(r.types, known.value) ==>
                  var e := EventType(h, r, deviceId, d, norm, reply, c, c');
                  e.answer.Found? && e.answer.deviceType.id == known.value && e.loads == []))
      && (known.None? ==>
            var e := EventType(h, r, deviceId, d, norm, reply, c', c).answer;
            var id := RegisteredTypeId(h, r, deviceId, d, norm, reply, c).answer;
            if e.Found? then id == Ok(e.deviceType.id) else id == Err(e))
  {
    var known := KnownId(r, deviceId, reply).value;
    if known.Some? {
      SearchById(r.types, known.value, norm);
    }
  }

  /**
   When the events of a known device get the type it is registered with: the lookup of its id ends, and the
   list it ends with has the id, or else the first match of the list the second lookup ends with has it.
   */
  lemma TypesAgreeIff(h: Horizon, r: Repo, deviceId: string, d: Device, norm: string -> string, reply: Reply, c: Call, c': Call)
    requires KnownId(r, deviceId, reply).Ok? && KnownId(r, deviceId, reply).value.Some?
    ensures var id := KnownId(r, deviceId, reply).value.value;
      var o := Lookup(h, AfterKnown(r, deviceId, reply), ById(id), norm, c);
      var o' := Lookup(h, o.repo, ForDevice(d), norm, c');
      var e := EventType(h, r, deviceId, d, norm, reply, c, c').answer;
      && RegisteredTypeId(h, r, deviceId, d, norm, reply, c).answer == Ok(id)
      && (e.Found? && e.deviceType.id == id
          <==> !o.answer.Failed? && (Lists(o.repo.types, id) || (!o'.answer.Failed? && MatchHasId(o'.repo.types, d, norm, id))))
  {
    var id := KnownId(r, deviceId, reply).value.value;
    var o := Lookup(h, AfterKnown(r, deviceId, reply), ById(id), norm, c);
    AnswerIsSearch(h, AfterKnown(r, deviceId, reply), ById(id), norm, c);
    AnswerIsSearch(h, o.repo, ForDevice(d), norm, c');
    SearchById(o.repo.types, id, norm);
  }

  /** While the list is too young to be reloaded, the condition is about the cached list alone. */
  lemma TypesAgreeIffListed(h: Horizon, r: Repo, deviceId: string, d: Device, norm: string -> string, reply: Reply, c: Call, c': Call)
    requires KnownId(r, deviceId, reply).Ok? && KnownId(r, deviceId, reply).value.Some?
    requires 0 <= h.min <= h.max && Ordered(c) && Ordered(c') && c.t3 <= c'.t1 && !Older(r.refreshed, c'.t2, h.min)
    ensures var id := KnownId(r, deviceId, reply).value.value;
      var e := EventType(h, r, deviceId, d, norm, reply, c, c').answer;
      e.Found? && e.deviceType.id == id <==> Lists(r.types, id) || MatchHasId(r.types, d, norm, id)
  {
    TypesAgreeIff(h, r, deviceId, d, norm, reply, c, c');
  }

  // ---------- runs ----------

  datatype Entry = Loaded(stamp: int) | Reset | Posted(key: string, deviceType: DeviceType)

  /** `log` is the history of a run, `now` the last clock reading. */
  datatype History = History(repo: Repo, log: seq<Entry>, now: int)

  datatype Step =
    | Query(q: Query, call: Call)
    | Known(deviceId: string, reply: Reply)
    | Create(attributes: seq<Attribute>, post: Result<DeviceType, string>)

  predicate Enabled(s: History, step: Step) {
    step.Query? ==> Ordered(step.call) && s.now <= step.call.t1
  }

  function Entries(stamps: seq<int>): (entries: seq<Entry>)
    ensures forall e | e in entries :: e.Loaded?
  {
    if stamps == [] then [] else Entries(stamps[..|stamps| - 1]) + [Loaded(stamps[|stamps| - 1])]
  }

  function Apply(h: Horizon, norm: string -> string, s: History, step: Step): History
    requires Enabled(s, step)
  {
    match step
    case Query(q, c) =>
      var o := Lookup(h, s.repo, q, norm, c);
      History(o.repo, s.log + Entries(o.loads), c.l3.stamp)
    case Known(deviceId, reply) => s.(repo := AfterKnown(s.repo, deviceId, reply))
    case Create(attributes, post) =>
      var key := KeyOf(attributes);
      if key in s.repo.created then s
      else s.(repo := AfterCreate(s.repo, attributes, post),
              log := s.log + [Reset] + if post.Ok? then [Posted(key, post.value)] else [])
  }

  function Run(h: Horizon, norm: string -> string, start: History, steps: seq<Step>): Option<History> {
    if steps == [] then Some(start)
    else
      match Run(h, norm, start, steps[..|steps| - 1])
      case None => None
      case Some(s) =>
        var step := steps[|steps| - 1];
        if Enabled(s, step) then Some(Apply(h, norm, s, step)) else None
  }

  lemma RunSnoc(h: Horizon, norm: string -> string, start: History, steps: seq<Step>, step: Step)
    requires Run(h, norm, start, steps).Some? && Enabled(Run(h, norm, start, steps).value, step)
    ensures Run(h, norm, start, steps + [step]) == Some(Apply(h, norm, Run(h, norm, start, steps).value, step))
  {
    assert (steps + [step])[..|steps|] == steps;
  }

  // ---------- the rate of loads ----------

  function Loads(log: seq<Entry>): seq<int> {
    if log == [] then []
    else
      var before := Loads(log[..|log| - 1]);
      match log[|log| - 1]
      case Loaded(stamp) => before + [stamp]
      case _ => before
  }

  function Resets(log: seq<Entry>): nat {
    if log == [] then 0 else Resets(log[..|log| - 1]) + if log[|log| - 1].Reset? then 1 else 0
  }

  /** k times m by addition, and 0 for a negative k. */
  function Multiple(k: int, m: nat): nat {
    if k <= 0 then 0 else m + Multiple(k - 1, m)
  }

  lemma {:induction false} MultipleBounds(k: int, m: nat)
    ensures k * m <= Multiple(k, m)
  {
    if k > 0 {
      MultipleBounds(k - 1, m);
      assert k * m == (k - 1) * m + m;
    }
  }

  /** With the loads and c resets so far, the time from the first to the last load is at least (n - 1 - c) * min. */
  ghost predicate RateInv(h: Horizon, refreshed: Stamp, loads: seq<int>, c: nat, now: int)
    requires 0 <= h.min
  {
    loads != [] ==>
      var first, last := loads[0], loads[|loads| - 1];
      && first <= last <= now
      && (refreshed.At? ==> refreshed.t == last)
      && Multiple(if refreshed.At? then |loads| - 1 - c else |loads| - c, h.min) <= last - first
  }

  lemma LoadKeepsRate(h: Horizon, refreshed: Stamp, loads: seq<int>, c: nat, now: int, t: int, stamp: int)
    requires 0 <= h.min && RateInv(h, refreshed, loads, c, now) && now <= t <= stamp && Older(refreshed, t, h.min)
    ensures RateInv(h, At(stamp), loads + [stamp], c, stamp)
  {
    assert Multiple(|loads| - c, h.min) <= Multiple(|loads| - 1 - c, h.min) + h.min;
  }

  lemma LaterKeepsRate(h: Horizon, refreshed: Stamp, loads: seq<int>, c: nat, now: int, later: int)
    requires 0 <= h.min && RateInv(h, refreshed, loads, c, now) && now <= later
    ensures RateInv(h, refreshed, loads, c, later)
  {
  }

  lemma ResetKeepsRate(h: Horizon, refreshed: Stamp, loads: seq<int>, c: nat, now: int)
    requires 0 <= h.min && RateInv(h, refreshed, loads, c, now)
    ensures RateInv(h, Never, loads, c + 1, now)
  {
    assert Multiple(|loads| - 1 - c, h.min) <= Multiple(|loads| - c, h.min);
  }

  lemma ListedKeepsRate(h: Horizon, r: Repo, t: int, l: Load, loads: seq<int>, c: nat, now: int)
    requires 0 <= h.min <= h.max && RateInv(h, r.refreshed, loads, c, now) && now <= t <= l.stamp
    ensures var (r', more, ok) := Listed(h, r, t, l); RateInv(h, r'.refreshed, loads + more, c, l.stamp)
  {
    if Older(r.refreshed, t, h.max) && l.result.Ok? {
      LoadKeepsRate(h, r.refreshed, loads, c, now, t, l.stamp);
    } else {
      LaterKeepsRate(h, r.refreshed, loads, c, now, l.stamp);
      assert loads + [] == loads;
    }
  }

  /** The loads a query can cause: those of its first listing, then the forced reload and those of the second listing. */
  ghost predicate QueryLoads(h: Horizon, r: Repo, call: Call, stamp: Stamp, loads: seq<int>) {
    var (r1, loads1, ok1) := Listed(h, r, call.t1, call.l1);
    var (r3, loads3, ok3) := Listed(h, Refreshed(r1, call.l2), call.t3, call.l3);
    || (stamp == r1.refreshed && loads == loads1)
    || (Older(r1.refreshed, call.t2, h.min) && call.l2.result.Ok?
        && stamp == r3.refreshed && loads == loads1 + [call.l2.stamp] + loads3)
  }

  lemma LookupLoads(h: Horizon, r: Repo, q: Query, norm: string -> string, call: Call)
    ensures var o := Lookup(h, r, q, norm, call); QueryLoads(h, r, call, o.repo.refreshed, o.loads)
  {
  }

  lemma QueryKeepsRate(h: Horizon, r: Repo, call: Call, loads: seq<int>, c: nat, now: int, stamp: Stamp, more: seq<int>)
    requires 0 <= h.min <= h.max && RateInv(h, r.refreshed, loads, c, now) && Ordered(call) && now <= call.t1
    requires QueryLoads(h, r, call, stamp, more)
    ensures RateInv(h, stamp, loads + more, c, call.l3.stamp)
  {
    var (r1, loads1, ok1) := Listed(h, r, call.t1, call.l1);
    ListedKeepsRate(h, r, call.t1, call.l1, loads, c, now);
    if more == loads1 && stamp == r1.refreshed {
      LaterKeepsRate(h, r1.refreshed, loads + loads1, c, call.l1.stamp, call.l3.stamp);
    } else {
      var r2 := Refreshed(r1, call.l2);
      var (r3, loads3, ok3) := Listed(h, r2, call.t3, call.l3);
      LoadKeepsRate(h, r1.refreshed, loads + loads1, c, call.l1.stamp, call.t2, call.l2.stamp);
      ListedKeepsRate(h, r2, call.t3, call.l3, loads + loads1 + [call.l2.stamp], c, call.l2.stamp);
      assert loads + more == loads + loads1 + [call.l2.stamp] + loads3;
    }
  }

  lemma LoadCounted(log: seq<Entry>, stamp: int)
    ensures Loads(log + [Loaded(stamp)]) == Loads(log) + [stamp] && Resets(log + [Loaded(stamp)]) == Resets(log)
  {
    assert (log + [Loaded(stamp)])[..|log|] == log;
  }

  lemma {:induction false} EntriesCounted(log: seq<Entry>, stamps: seq<int>)
    ensures Loads(log + Entries(stamps)) == Loads(log) + stamps && Resets(log + Entries(stamps)) == Resets(log)
  {
    if stamps == [] {
      assert log + Entries(stamps) == log && Loads(log) + stamps == Loads(log);
    } else {
      var init, last := stamps[..|stamps| - 1], stamps[|stamps| - 1];
      EntriesCounted(log, init);
      LoadCounted(log + Entries(init), last);
      assert log + Entries(stamps) == log + Entries(init) + [Loaded(last)];
      assert Loads(log) + stamps == Loads(log) + init + [last];
    }
  }

  lemma ResetCounted(log: seq<Entry>, key: string, post: Result<DeviceType, string>)
    ensures var all := log + [Reset] + if post.Ok? then [Posted(key, post.value)] else [];
      Loads(all) == Loads(log) && Resets(all) == Resets(log) + 1
  {
    var reset := log + [Reset];
    assert reset[..|log|] == log;
    var all := reset + if post.Ok? then [Posted(key, post.value)] else [];
    if post.Ok? {
      assert all[..|reset|] == reset;
    } else {
      assert all == reset;
    }
  }

  lemma StepKeepsRate(h: Horizon, norm: string -> string, s: History, step: Step)
    requires 0 <= h.min <= h.max && Enabled(s, step)
    requires RateInv(h, s.repo.refreshed, Loads(s.log), Resets(s.log), s.now)
    ensures var t := Apply(h, norm, s, step); RateInv(h, t.repo.refreshed, Loads(t.log), Resets(t.log), t.now)
  {
    match step
    case Query(q, call) =>
      var o := Lookup(h, s.repo, q, norm, call);
      LookupLoads(h, s.repo, q, norm, call);
      QueryKeepsRate(h, s.repo, call, Loads(s.log), Resets(s.log), s.now, o.repo.refreshed, o.loads);
      EntriesCounted(s.log, o.loads);
    case Known(_, _) =>
    case Create(attributes, post) =>
      ResetCounted(s.log, KeyOf(attributes), post);
      ResetKeepsRate(h, s.repo.refreshed, Loads(s.log), Resets(s.log), s.now);
  }

  lemma {:induction false} RateInRuns(h: Horizon, norm: string -> string, start: History, steps: seq<Step>)
    requires 0 <= h.min <= h.max && start.log == [] && Run(h, norm, start, steps).Some?
    ensures var s := Run(h, norm, start, steps).value; RateInv(h, s.repo.refreshed, Loads(s.log), Resets(s.log), s.now)
  {
    if steps != [] {
      var before := steps[..|steps| - 1];
      RateInRuns(h, norm, start, before);
      StepKeepsRate(h, norm, Run(h, norm, start, before).value, steps[|steps| - 1]);
    }
  }

  lemma RateBound(h: Horizon, refreshed: Stamp, loads: seq<int>, c: nat, now: int)
    requires 0 <= h.min && RateInv(h, refreshed, loads, c, now) && loads != []
    ensures (|loads| - 1 - c) * h.min <= loads[|loads| - 1] - loads[0]
  {
    MultipleBounds(|loads| - 1 - c, h.min);
    assert Multiple(|loads| - 1 - c, h.min) <= Multiple(|loads| - c, h.min);
  }

  /** In any stretch of a run with n loads and c resets, (n - 1 - c) * min is at most the time from the first load to the last. */
  lemma LoadRate(h: Horizon, norm: string -> string, start: History, steps: seq<Step>)
    requires 0 <= h.min <= h.max && start.log == [] && Run(h, norm, start, steps).Some?
    ensures var log := Run(h, norm, start, steps).value.log;
      var loads := Loads(log);
      loads != [] ==> (|loads| - 1 - Resets(log)) * h.min <= loads[|loads| - 1] - loads[0]
  {
    RateInRuns(h, norm, start, steps);
    var s := Run(h, norm, start, steps).value;
    if Loads(s.log) != [] {
      RateBound(h, s.repo.refreshed, Loads(s.log), Resets(s.log), s.now);
    }
  }

  // ---------- what never changes again ----------

  /** A created type and a known device's type id stay, whatever happens. */
  lemma {:induction false} TablesOnlyGrow(h: Horizon, norm: string -> string, start: History, steps: seq<Step>)
    requires Run(h, norm, start, steps).Some?
    ensures var s := Run(h, norm, start, steps).value;
      && (forall k | k in start.repo.created :: k in s.repo.created && s.repo.created[k] == start.repo.created[k])
      && (forall k | k in start.repo.known :: k in s.repo.known && s.repo.known[k] == start.repo.known[k])
  {
    if steps != [] {
      var before := steps[..|steps| - 1];
      TablesOnlyGrow(h, norm, start, before);
      var s := Run(h, norm, start, before).value;
      var step := steps[|steps| - 1];
      if step.Query? {
        AnswerIsSearch(h, s.repo, step.q, norm, step.call);
      }
    }
  }

  /** Once a type id was answered for a device, every later call answers it. */
  lemma KnownIsSticky(h: Horizon, norm: string -> string, s: History, deviceId: string, reply: Reply, steps: seq<Step>, later: Reply)
    requires KnownId(s.repo, deviceId, reply).Ok? && KnownId(s.repo, deviceId, reply).value.Some?
    requires Run(h, norm, Apply(h, norm, s, Known(deviceId, reply)), steps).Some?
    ensures var t := Run(h, norm, Apply(h, norm, s, Known(deviceId, reply)), steps).value;
      KnownId(t.repo, deviceId, later) == KnownId(s.repo, deviceId, reply)
  {
    TablesOnlyGrow(h, norm, Apply(h, norm, s, Known(deviceId, reply)), steps);
  }

  /**
   Type agreement over a run: once a type id was answered for a device, every later registration uses it,
   and so does every later event while the id is in a cached list that is not outdated.
   */
  lemma TypesAgreeLater(h: Horizon, norm: string -> string, s: History, deviceId: string, reply: Reply, steps: seq<Step>,
                        later: Reply, d: Device, c: Call, c': Call)
    requires KnownId(s.repo, deviceId, reply).Ok? && KnownId(s.repo, deviceId, reply).value.Some?
    requires Run(h, norm, Apply(h, norm, s, Known(deviceId, reply)), steps).Some?
    ensures var id := KnownId(s.repo, deviceId, reply).value.value;
      var r := Run(h, norm, Apply(h, norm, s, Known(deviceId, reply)), steps).value.repo;
      && RegisteredTypeId(h, r, deviceId, d, norm, later, c).answer == Ok(id)
      && (!Older(r.refreshed, c.t1, h.max) && Lists(r.types, id) ==>
            var e := EventType(h, r, deviceId, d, norm, later, c, c');
            e.answer.Found? && e.answer.deviceType.id == id && e.loads == [])
  {
    KnownIsSticky(h, norm, s, deviceId, reply, steps, later);
    TypesAgree(h, Run(h, norm, Apply(h, norm, s, Known(deviceId, reply)), steps).value.repo, deviceId, d, norm, later, c, c');
  }

  /** The results of the successful POSTs for a key. */
  function PostsOf(log: seq<Entry>, key: string): seq<DeviceType> {
    if log == [] then []
    else
      var before := PostsOf(log[..|log| - 1], key);
      match log[|log| - 1]
      case Posted(k, dt) => if k == key then before + [dt] else before
      case _ => before
  }

  lemma {:induction false} NothingPosted(log: seq<Entry>, more: seq<Entry>, key: string)
    requires forall e | e in more :: e.Posted? ==> e.key != key
    ensures PostsOf(log + more, key) == PostsOf(log, key)
  {
    if more == [] {
      assert log + more == log;
    } else {
      NothingPosted(log, more[..|more| - 1], key);
      assert (log + more)[..|log + more| - 1] == log + more[..|more| - 1];
    }
  }

  lemma OnePosted(log: seq<Entry>, key: string, dt: DeviceType, other: string)
    ensures PostsOf(log + [Reset] + [Posted(key, dt)], other) == PostsOf(log, other) + if other == key then [dt] else []
  {
    assert (log + [Reset])[..|log|] == log;
    assert (log + [Reset] + [Posted(key, dt)])[..|log| + 1] == log + [Reset];
  }

  function Remembered(r: Repo, key: string): seq<DeviceType> {
    if key in r.created then [r.created[key]] else []
  }

  lemma StepKeepsPosts(h: Horizon, norm: string -> string, s: History, step: Step, key: string)
    requires Enabled(s, step) && PostsOf(s.log, key) == Remembered(s.repo, key)
    ensures PostsOf(Apply(h, norm, s, step).log, key) == Remembered(Apply(h, norm, s, step).repo, key)
  {
    match step
    case Query(q, c) =>
      AnswerIsSearch(h, s.repo, q, norm, c);
      NothingPosted(s.log, Entries(Lookup(h, s.repo, q, norm, c).loads), key);
    case Known(_, _) =>
    case Create(attributes, post) =>
      if KeyOf(attributes) !in s.repo.created {
        if post.Ok? {
          OnePosted(s.log, KeyOf(attributes), post.value, key);
          assert Apply(h, norm, s, step).log == s.log + [Reset] + [Posted(KeyOf(attributes), post.value)];
        } else {
          NothingPosted(s.log, [Reset], key);
          assert Apply(h, norm, s, step).log == s.log + [Reset];
        }
      }
  }

  /** In every run at most one POST per key succeeds, and its result is the one remembered. */
  lemma {:induction false} OnePostPerKey(h: Horizon, norm: string -> string, now: int, steps: seq<Step>, key: string)
    requires Run(h, norm, History(EMPTY_REPO, [], now), steps).Some?
    ensures var s := Run(h, norm, History(EMPTY_REPO, [], now), steps).value;
      |PostsOf(s.log, key)| <= 1 && PostsOf(s.log, key) == Remembered(s.repo, key)
  {
    if steps != [] {
      var before := steps[..|steps| - 1];
      OnePostPerKey(h, norm, now, before, key);
      StepKeepsPosts(h, norm, Run(h, norm, History(EMPTY_REPO, [], now), before).value, steps[|steps| - 1], key);
    }
  }

  /** Once a creation succeeded, every later creation with the same key answers its result, and posts nothing. */
  lemma CreationIsSticky(h: Horizon, norm: string -> string, s: History, attributes: seq<Attribute>, post: Result<DeviceType, string>,
                         steps: seq<Step>, others: seq<Attribute>, later: Result<DeviceType, string>)
    requires CreateAnswer(s.repo, attributes, post).Ok? && KeyOf(others) == KeyOf(attributes)
    requires Run(h, norm, Apply(h, norm, s, Create(attributes, post)), steps).Some?
    ensures var t := Run(h, norm, Apply(h, norm, s, Create(attributes, post)), steps).value;
      && CreateAnswer(t.repo, others, later) == CreateAnswer(s.repo, attributes, post)
      && Apply(h, norm, t, Create(others, later)) == t
  {
    TablesOnlyGrow(h, norm, Apply(h, norm, s, Create(attributes, post)), steps);
  }

  // ---------- creation and search agree ----------

  const USED := "senergy/zigbee-dc"

  /** The attributes zigbeeDeviceToDeviceType gives the type it creates for a device. */
  function CreationAttributes(d: Device): seq<Attribute> {
    [Attribute(USED, "true"), Attribute(VENDOR, d.definition.vendor), Attribute(MODEL, d.definition.model)]
  }

  /** The type created for a device is remembered under the vendor and model of the device and matches the device. */
  lemma CreatedTypeMatches(d: Device, dt: DeviceType, norm: string -> string)
    requires dt.attributes == CreationAttributes(d)
    ensures KeyOf(dt.attributes) == Printed(d.definition.vendor, d.definition.model)
    ensures MatchesDevice(dt, d, norm)
  {
    var a := dt.attributes;
    assert a[1].key == VENDOR && a[2].key == MODEL;
    assert a[..2][..1] == a[..1] && a[..2][1] == a[1];
    assert LastValue(a[..2], VENDOR) == a[1].value;
  }

  /** After a POST for a device, the next query reloads, and finds a type if the platform lists the created one. */
  lemma CreatedIsFound(h: Horizon, r: Repo, d: Device, dt: DeviceType, norm: string -> string, c: Call)
    requires KeyOf(CreationAttributes(d)) !in r.created && dt.attributes == CreationAttributes(d)
    requires c.l1.result.Ok? && dt in c.l1.result.value
    ensures var o := Lookup(h, AfterCreate(r, CreationAttributes(d), Ok(dt)), ForDevice(d), norm, c);
      o.loads == [c.l1.stamp] && o.answer.Found? && MatchesDevice(o.answer.deviceType, d, norm)
  {
    CreatedTypeMatches(d, dt, norm);
    var types := c.l1.result.value;
    var i :| 0 <= i < |types| && types[i] == dt;
    assert Fits(ForDevice(d), types[i], norm);
    var r' := AfterCreate(r, CreationAttributes(d), Ok(dt));
    assert Listed(h, r', c.t1, c.l1) == (Refreshed(r', c.l1), [c.l1.stamp], true);
    SearchMeaning(types, ForDevice(d), norm);
  }

  /** Every tried POST, also one that fails, makes the next query load the list first. */
  lemma CreationForcesReload(h: Horizon, r: Repo, attributes: seq<Attribute>, post: Result<DeviceType, string>,
                             q: Query, norm: string -> string, c: Call)
    requires KeyOf(attributes) !in r.created && c.l1.result.Ok?
    ensures var after := AfterCreate(r, attributes, post);
      && after.types == r.types && after.known == r.known
      && (post.Err? ==> CreateAnswer(r, attributes, post) == post && after.created == r.created)
      && (post.Ok? ==> CreateAnswer(r, attributes, post) == post && after.created == r.created[KeyOf(attributes) := post.value])
      && var o := Lookup(h, after, q, norm, c); o.loads != [] && o.loads[0] == c.l1.stamp
  {
  }

  // ---------- registration and events can disagree ----------

  /**
   A valid device is known with a type id that the list does not hold, and a listed type has its vendor and
   model: it is registered with the old id, and its events get the new type.
   */
  lemma TypesCanDisagree(h: Horizon, norm: string -> string, config: DeviceLoop.Config)
    returns (d: Device, start: History, steps: seq<Step>, c: Call)
    requires 0 <= h.min <= h.max
    ensures DeviceLoop.IsValidDevice(d) && start == History(EMPTY_REPO, [], 0) && Run(h, norm, start, steps).Some?
    ensures Ordered(c) && Run(h, norm, start, steps).value.now <= c.t1
    ensures var r := Run(h, norm, start, steps).value.repo;
      var id := DeviceLoop.DeviceId(config, d);
      && RegisteredTypeId(h, r, id, d, norm, Unregistered, c).answer == Ok("old")
      && var e := EventType(h, r, id, d, norm, Unregistered, c, c).answer;
         e.Found? && e.deviceType.id == "new"
  {
    var exposed := Feature("binary", "state", 7, [], None, [], 0.0, String("ON"));
    d := Device("0x1", "lamp", true, false, true, Definition("v", "m", [exposed]));
    var id := DeviceLoop.DeviceId(config, d);
    var dt := DeviceType("new", CreationAttributes(d), []);
    var load := Load(0, Ok([dt]));
    c := Call(0, load, 0, load, 0, load);
    OnlyMatch(d, dt, norm);
    start := History(EMPTY_REPO, [], 0);
    steps := [Known(id, Registered("old")), Query(ForDevice(d), c)];
    assert steps[..1] == [Known(id, Registered("old"))] && steps[..1][..0] == [];
    var known := Apply(h, norm, start, steps[0]);
    assert Run(h, norm, start, steps[..1]) == Some(known);
    var r := Repo([dt], At(0), map[], map[id := "old"]);
    assert Lookup(h, known.repo, ForDevice(d), norm, c) == Outcome(r, Found(dt), [0]);
    assert Lookup(h, r, ById("old"), norm, c) == Outcome(r, NoMatch, []);
    assert Lookup(h, r, ForDevice(d), norm, c) == Outcome(r, Found(dt), []);
  }

  lemma OnlyMatch(d: Device, dt: DeviceType, norm: string -> string)
    requires dt.attributes == CreationAttributes(d) && dt.id == "new"
    ensures Search([dt], ForDevice(d), norm) == Some(dt) && Search([dt], ById("old"), norm) == None
  {
    CreatedTypeMatches(d, dt, norm);
    assert dt.id[0] != "old"[0];
    assert [dt][0] == dt && [dt][1..] == [];
    assert Fits(ForDevice(d), dt, norm) && !Fits(ById("old"), dt, norm);
  }
}
