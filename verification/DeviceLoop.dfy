/**
 Device registration (pkg/connector/device.go) and the event gate (pkg/connector/event.go).
 What the repository, the platform and the gateway answer is an input of each step; what the
 connector does to the outside, and which type it resolved for which device, is a trace.
 */
module DeviceLoop {
  import opened Common

  datatype State = Online | Offline

  datatype Config = Config(deviceIdPrefix: string, createMissing: bool)

  /** Outcome of reading the device type id of a device. */
  datatype TypeRead = Found(id: string) | NoMatch | ReadError(message: string)

  /** The outcome of a creation: Go returns the id of the result also next to an error. */
  datatype Creation = Creation(id: string, err: Option<string>)

  /** What the environment answers while one device is handled. */
  datatype Feedback = Feedback(read: TypeRead, creation: Creation, setErr: Option<string>)

  datatype Failure = NoMatchingType | Unreadable(message: string) | NotCreated(message: string) | NotSet(message: string)

  datatype Report = Report(newDeviceType: string, err: Option<Failure>, retry: bool)

  datatype Effect =
    | Resolved(device: Device, typeId: string)
    | SetDevice(id: string, name: string, state: State, typeId: string, ok: bool)
    | ClientError(device: Device)
    | Refresh(devices: seq<Device>)
    | Sent(device: Device, serviceId: string, ok: bool)
    | DeviceError(device: Device)

  // ---------- one device ----------

  predicate IsValidDevice(d: Device) {
    d.supported && d.interviewCompleted && d.definition.vendor != "" && d.definition.model != "" && d.definition.exposes != []
  }

  function DeviceState(d: Device): State {
    if d.disabled then Offline else Online
  }

  function DeviceId(config: Config, d: Device): string {
    config.deviceIdPrefix + d.ieee
  }

  /** The type id of a valid device: read, or created when none matches and creation is enabled. */
  function TypeId(config: Config, d: Device, a: Feedback): Option<string> {
    if !IsValidDevice(d) then None
    else
      match a.read
      case Found(id) => Some(id)
      case NoMatch => if config.createMissing && a.creation.err.None? then Some(a.creation.id) else None
      case ReadError(_) => None
  }

  /** Why the handling of a device ended early, if it did. */
  function FailureOf(config: Config, d: Device, a: Feedback): Option<Failure> {
    if !IsValidDevice(d) then None
    else if a.read.ReadError? then Some(Unreadable(a.read.message))
    else if a.read.NoMatch? && !config.createMissing then Some(NoMatchingType)
    else if a.read.NoMatch? && a.creation.err.Some? then Some(NotCreated(a.creation.err.value))
    else if a.setErr.Some? then Some(NotSet(a.setErr.value))
    else None
  }

  predicate Retried(d: Device, a: Feedback) {
    IsValidDevice(d) && a.read.ReadError?
  }

  function Effects(config: Config, d: Device, a: Feedback): seq<Effect> {
    match TypeId(config, d, a)
    case Some(id) =>
      [Resolved(d, id), SetDevice(DeviceId(config, d), d.friendlyName, DeviceState(d), id, a.setErr.None?)]
    case None =>
      if FailureOf(config, d, a) == Some(NoMatchingType) then [ClientError(d)] else []
  }

  function StoredAfter(config: Config, stored: map<string, State>, d: Device, a: Feedback): map<string, State> {
    if TypeId(config, d, a).Some? then stored[d.ieee := DeviceState(d)] else stored
  }

  /** What happens to one device, case by case. */
  lemma HandlingMeaning(config: Config, d: Device, a: Feedback)
    ensures var valid := d.supported && d.interviewCompleted && d.definition.vendor != "" && d.definition.model != "" && d.definition.exposes != [];
      var effects := Effects(config, d, a);
      var failure := FailureOf(config, d, a);
      var setWith := (id: string) =>
        [Resolved(d, id), SetDevice(config.deviceIdPrefix + d.ieee, d.friendlyName, if d.disabled then Offline else Online, id, a.setErr.None?)];
      var setFailure := if a.setErr.Some? then Some(NotSet(a.setErr.value)) else None;
      && (!valid ==> effects == [] && failure == None)
      && (valid ==>
            match a.read
            case Found(id) => effects == setWith(id) && failure == setFailure
            case ReadError(m) => effects == [] && failure == Some(Unreadable(m))
            case NoMatch =>
              if !config.createMissing then effects == [ClientError(d)] && failure == Some(NoMatchingType)
              else if a.creation.err.Some? then effects == [] && failure == Some(NotCreated(a.creation.err.value))
              else effects == setWith(a.creation.id) && failure == setFailure)
      && (Retried(d, a) <==> valid && a.read.ReadError?)
  {
  }

  // ---------- one pass over a device list ----------

  datatype Class = Failed | Recovered | Rest

  function Classify(config: Config, wasFailing: set<string>, d: Device, a: Feedback): Class {
    if Retried(d, a) then Failed
    else if FailureOf(config, d, a).None? && d.ieee in wasFailing && !d.disabled then Recovered
    else Rest
  }

  /** The devices of one class among the first `n`, in the order of the list. */
  function Pick(config: Config, wasFailing: set<string>, devices: seq<Device>, answers: seq<Feedback>, n: nat, group: Class): (picked: seq<Device>)
    requires n <= |devices| && n <= |answers|
  {
    if n == 0 then []
    else
      var before := Pick(config, wasFailing, devices, answers, n - 1, group);
      if Classify(config, wasFailing, devices[n - 1], answers[n - 1]) == group then before + [devices[n - 1]] else before
  }

  function LastError(devices: seq<Device>, answers: seq<Feedback>, n: nat): Option<Failure>
    requires n <= |devices| && n <= |answers|
  {
    if n == 0 then None
    else if Retried(devices[n - 1], answers[n - 1]) then Some(Unreadable(answers[n - 1].read.message))
    else LastError(devices, answers, n - 1)
  }

  function Ieees(devices: seq<Device>): set<string> {
    set d | d in devices :: d.ieee
  }

  lemma PickGrows(config: Config, wasFailing: set<string>, devices: seq<Device>, answers: seq<Feedback>, n: nat, c: Class)
    requires 0 < n <= |devices| && n <= |answers|
    ensures var before := Pick(config, wasFailing, devices, answers, n - 1, c);
      Pick(config, wasFailing, devices, answers, n, c)
      == if Classify(config, wasFailing, devices[n - 1], answers[n - 1]) == c then before + [devices[n - 1]] else before
  {
  }

  /** The devices of a class are in the order of the list. */
  lemma {:induction false} PickedInOrder(config: Config, wasFailing: set<string>, devices: seq<Device>, answers: seq<Feedback>, n: nat, c: Class)
    requires n <= |devices| && n <= |answers|
    ensures Subsequence(Pick(config, wasFailing, devices, answers, n, c), devices[..n])
  {
    if n > 0 {
      PickedInOrder(config, wasFailing, devices, answers, n - 1, c);
      PickGrows(config, wasFailing, devices, answers, n, c);
      assert devices[..n] == devices[..n - 1] + [devices[n - 1]];
      SubsequenceSnoc(Pick(config, wasFailing, devices, answers, n - 1, c), devices[..n - 1], devices[n - 1],
                      Classify(config, wasFailing, devices[n - 1], answers[n - 1]) == c);
    }
  }

  lemma SubsequenceSnoc<T>(a: seq<T>, b: seq<T>, x: T, take: bool)
    requires Subsequence(a, b)
    ensures Subsequence(if take then a + [x] else a, b + [x])
  {
    assert (b + [x])[..|b|] == b && (a + [x])[..|a|] == a;
  }

  lemma PickCounts(config: Config, wasFailing: set<string>, devices: seq<Device>, answers: seq<Feedback>, n: nat, c: Class)
    requires 0 < n <= |devices| && n <= |answers|
    ensures multiset(Pick(config, wasFailing, devices, answers, n, c))
         == multiset(Pick(config, wasFailing, devices, answers, n - 1, c))
            + if Classify(config, wasFailing, devices[n - 1], answers[n - 1]) == c then multiset{devices[n - 1]} else multiset{}
  {
  }

  /** The three classes of a pass are its whole list: nothing lost, nothing doubled. */
  lemma {:induction false} PassConserves(config: Config, wasFailing: set<string>, devices: seq<Device>, answers: seq<Feedback>, n: nat)
    requires n <= |devices| && n <= |answers|
    ensures multiset(devices[..n])
         == multiset(Pick(config, wasFailing, devices, answers, n, Failed))
            + multiset(Pick(config, wasFailing, devices, answers, n, Recovered))
            + multiset(Pick(config, wasFailing, devices, answers, n, Rest))
  {
    if n > 0 {
      PassConserves(config, wasFailing, devices, answers, n - 1);
      assert devices[..n] == devices[..n - 1] + [devices[n - 1]];
      PickCounts(config, wasFailing, devices, answers, n, Failed);
      PickCounts(config, wasFailing, devices, answers, n, Recovered);
      PickCounts(config, wasFailing, devices, answers, n, Rest);
    }
  }

  /** The devices of a class are exactly those handled at some position with an answer of that class. */
  lemma {:induction false} PickedAt(config: Config, wasFailing: set<string>, devices: seq<Device>, answers: seq<Feedback>, n: nat, c: Class, d: Device)
    requires n <= |devices| && n <= |answers|
    ensures d in Pick(config, wasFailing, devices, answers, n, c)
       <==> exists i :: 0 <= i < n && devices[i] == d && Classify(config, wasFailing, d, answers[i]) == c
  {
    if n > 0 {
      PickedAt(config, wasFailing, devices, answers, n - 1, c, d);
    }
  }

  /** The handling of `d` set it online, with the type it resolved, and the gateway took it. */
  ghost predicate SetOnline(config: Config, d: Device, a: Feedback) {
    var id := TypeId(config, d, a);
    && id.Some?
    && Effects(config, d, a) == [Resolved(d, id.value), SetDevice(DeviceId(config, d), d.friendlyName, Online, id.value, true)]
  }

  /**
   Every recovered device is enabled and was failing. If it is valid its handling in this pass set it
   online; if it is not, its handling did nothing at all.
   */
  lemma RecoveredMeaning(config: Config, wasFailing: set<string>, devices: seq<Device>, answers: seq<Feedback>, n: nat, d: Device) returns (i: nat)
    requires n <= |devices| && n <= |answers|
    requires d in Pick(config, wasFailing, devices, answers, n, Recovered)
    ensures i < n && devices[i] == d && !d.disabled && d.ieee in wasFailing
    ensures if IsValidDevice(d) then SetOnline(config, d, answers[i]) else Effects(config, d, answers[i]) == []
  {
    PickedAt(config, wasFailing, devices, answers, n, Recovered, d);
    i :| 0 <= i < n && devices[i] == d && Classify(config, wasFailing, d, answers[i]) == Recovered;
  }

  /** Failed are exactly the valid devices whose type read failed with an error other than no-match. */
  lemma FailedIffRetried(config: Config, wasFailing: set<string>, devices: seq<Device>, answers: seq<Feedback>, n: nat, d: Device)
    requires n <= |devices| && n <= |answers|
    ensures d in Pick(config, wasFailing, devices, answers, n, Failed)
       <==> && d.supported && d.interviewCompleted && d.definition.vendor != "" && d.definition.model != "" && d.definition.exposes != []
            && exists i :: 0 <= i < n && devices[i] == d && answers[i].read.ReadError?
  {
    PickedAt(config, wasFailing, devices, answers, n, Failed, d);
    if i :| 0 <= i < n && devices[i] == d && Retried(d, answers[i]) {
      assert Classify(config, wasFailing, d, answers[i]) == Failed;
    }
    if i :| 0 <= i < n && devices[i] == d && answers[i].read.ReadError? {
      if IsValidDevice(d) {
        assert Classify(config, wasFailing, d, answers[i]) == Failed;
      }
    }
  }

  /** An invalid device, or one with a type, read or created, that the gateway took. */
  predicate HandledWell(config: Config, d: Device, a: Feedback) {
    d.supported && d.interviewCompleted && d.definition.vendor != "" && d.definition.model != "" && d.definition.exposes != [] ==>
      && (a.read.Found? || (a.read.NoMatch? && config.createMissing && a.creation.err.None?))
      && a.setErr.None?
  }

  /** Recovered are exactly the enabled devices that were failing and are now handled without an error. */
  lemma RecoveredIff(config: Config, wasFailing: set<string>, devices: seq<Device>, answers: seq<Feedback>, n: nat, d: Device)
    requires n <= |devices| && n <= |answers|
    ensures d in Pick(config, wasFailing, devices, answers, n, Recovered)
       <==> && !d.disabled && d.ieee in wasFailing
            && exists i :: 0 <= i < n && devices[i] == d && HandledWell(config, d, answers[i])
  {
    PickedAt(config, wasFailing, devices, answers, n, Recovered, d);
    forall i | 0 <= i < n && devices[i] == d
      ensures Classify(config, wasFailing, d, answers[i]) == Recovered
         <==> && !d.disabled && d.ieee in wasFailing
              && HandledWell(config, d, answers[i])
    {
      HandlingMeaning(config, d, answers[i]);
    }
  }

  /** Reads that fail with nothing but no-match leave nothing to retry. */
  lemma {:induction false} FailedIffUnreadable(config: Config, wasFailing: set<string>, devices: seq<Device>, answers: seq<Feedback>, n: nat)
    requires n <= |devices| && n <= |answers|
    ensures Pick(config, wasFailing, devices, answers, n, Failed) == [] <==> forall i | 0 <= i < n :: !Retried(devices[i], answers[i])
    ensures LastError(devices, answers, n).None? <==> forall i | 0 <= i < n :: !Retried(devices[i], answers[i])
  {
    if n > 0 {
      FailedIffUnreadable(config, wasFailing, devices, answers, n - 1);
    }
  }

  /** The error reported for a pass is that of the last device whose read failed. */
  lemma {:induction false} LastErrorMeaning(devices: seq<Device>, answers: seq<Feedback>, n: nat)
    requires n <= |devices| && n <= |answers|
    ensures LastError(devices, answers, n).Some? ==>
              exists i :: 0 <= i < n && IsValidDevice(devices[i]) && answers[i].read.ReadError?
                          && LastError(devices, answers, n) == Some(Unreadable(answers[i].read.message))
                          && forall j | i < j < n :: !(IsValidDevice(devices[j]) && answers[j].read.ReadError?)
  {
    if n > 0 && !Retried(devices[n - 1], answers[n - 1]) {
      LastErrorMeaning(devices, answers, n - 1);
    }
  }

  // ---------- events ----------

  const CONDITION_KEY := "mgw-service-selection-condition"

  /** The condition of a service: the value of its first attribute with the condition key. */
  function ConditionOf(attributes: seq<Attribute>): Option<string> {
    if attributes == [] then None
    else if attributes[0].key == CONDITION_KEY then Some(attributes[0].value)
    else ConditionOf(attributes[1..])
  }

  /** A service is selected if it has a condition which evaluates, without an error, to true. */
  predicate Selected(service: Service, value: Json, eval: (string, Json) -> Option<bool>) {
    var condition := ConditionOf(service.attributes);
    condition.Some? && eval(condition.value, value) == Some(true)
  }

  function SelectedIds(services: seq<Service>, value: Json, eval: (string, Json) -> Option<bool>): seq<string> {
    if services == [] then []
    else
      var before := SelectedIds(services[..|services| - 1], value, eval);
      var last := services[|services| - 1];
      if Selected(last, value, eval) then before + [last.localId] else before
  }

  function LocalIds(services: seq<Service>): (ids: seq<string>)
    ensures |ids| == |services| && forall i | 0 <= i < |services| :: ids[i] == services[i].localId
  {
    seq(|services|, i requires 0 <= i < |services| => services[i].localId)
  }

  /** The selected services are exactly those whose condition holds, in the order of the device type. */
  lemma {:induction false} SelectedMeaning(services: seq<Service>, value: Json, eval: (string, Json) -> Option<bool>)
    ensures forall id :: id in SelectedIds(services, value, eval)
              <==> exists i :: 0 <= i < |services| && services[i].localId == id && Selected(services[i], value, eval)
    ensures Subsequence(SelectedIds(services, value, eval), LocalIds(services))
  {
    var ids := LocalIds(services);
    if services != [] {
      var init, last := services[..|services| - 1], services[|services| - 1];
      SelectedMeaning(init, value, eval);
      var before := LocalIds(init);
      SubsequenceSnoc(SelectedIds(init, value, eval), before, last.localId, Selected(last, value, eval));
      assert ids == before + [last.localId];
      forall id
        ensures id in SelectedIds(services, value, eval)
           <==> exists i :: 0 <= i < |services| && services[i].localId == id && Selected(services[i], value, eval)
      {
        if i :| 0 <= i < |init| && init[i].localId == id && Selected(init[i], value, eval) {
          assert services[i] == init[i];
        }
        if i :| 0 <= i < |services| && services[i].localId == id && Selected(services[i], value, eval) {
          if i < |init| { assert init[i] == services[i]; }
        }
      }
    }
  }

  /** The first attribute of the service with the condition key evaluates, without an error, to true. */
  ghost predicate TakesEvent(service: Service, value: Json, eval: (string, Json) -> Option<bool>) {
    exists j :: 0 <= j < |service.attributes|
                && service.attributes[j].key == "mgw-service-selection-condition"
                && (forall k | 0 <= k < j :: service.attributes[k].key != "mgw-service-selection-condition")
                && eval(service.attributes[j].value, value) == Some(true)
  }

  lemma {:induction false} ConditionMeaning(attributes: seq<Attribute>)
    ensures ConditionOf(attributes).None? <==> forall k | 0 <= k < |attributes| :: attributes[k].key != CONDITION_KEY
    ensures ConditionOf(attributes).Some? ==>
              exists j :: 0 <= j < |attributes| && attributes[j].key == CONDITION_KEY && attributes[j].value == ConditionOf(attributes).value
                          && forall k | 0 <= k < j :: attributes[k].key != CONDITION_KEY
  {
    if attributes != [] && attributes[0].key != CONDITION_KEY {
      var rest := attributes[1..];
      ConditionMeaning(rest);
      assert forall k | 0 < k < |attributes| :: attributes[k] == rest[k - 1];
      if ConditionOf(rest).Some? {
        var j :| 0 <= j < |rest| && rest[j].key == CONDITION_KEY && rest[j].value == ConditionOf(rest).value
                 && forall k | 0 <= k < j :: rest[k].key != CONDITION_KEY;
        assert attributes[j + 1] == rest[j];
      }
    }
  }

  lemma SelectedIffTakes(service: Service, value: Json, eval: (string, Json) -> Option<bool>)
    ensures Selected(service, value, eval) <==> TakesEvent(service, value, eval)
  {
    ConditionMeaning(service.attributes);
    if j :| 0 <= j < |service.attributes| && service.attributes[j].key == CONDITION_KEY
            && (forall k | 0 <= k < j :: service.attributes[k].key != CONDITION_KEY) {
      var c := ConditionOf(service.attributes).value;
      var i :| 0 <= i < |service.attributes| && service.attributes[i].key == CONDITION_KEY && service.attributes[i].value == c
               && forall k | 0 <= k < i :: service.attributes[k].key != CONDITION_KEY;
      assert i == j;
    }
  }

  method CheckServiceAttrCondition(service: Service, value: Json, eval: (string, Json) -> Option<bool>) returns (ok: bool)
    ensures ok <==> Selected(service, value, eval)
    ensures ok <==> TakesEvent(service, value, eval)
  {
    SelectedIffTakes(service, value, eval);
    var attributes := service.attributes;
    for i := 0 to |attributes|
      invariant ConditionOf(attributes) == ConditionOf(attributes[i..])
    {
      if attributes[i].key == CONDITION_KEY {
        var result := eval(attributes[i].value, value);
        if result.None? {
          return false;
        }
        assert result == Some(result.value);
        return result.value;
      }
    }
    ok := false;
  }

  /** None if the payload is not JSON: the event then goes to no service, not even "get". */
  method GetServiceIds(services: seq<Service>, payload: Option<Json>, eval: (string, Json) -> Option<bool>) returns (r: Option<seq<string>>)
    ensures r == if payload.None? then None else Some(["get"] + SelectedIds(services, payload.value, eval))
  {
    var result := ["get"];
    if payload.None? {
      return None;
    }
    for i := 0 to |services|
      invariant result == ["get"] + SelectedIds(services[..i], payload.value, eval)
    {
      assert services[..i + 1][..i] == services[..i];
      var ok := CheckServiceAttrCondition(services[i], payload.value, eval);
      if ok {
        result := result + [services[i].localId];
      }
    }
    assert services[..|services|] == services;
    r := Some(result);
  }

  /** What an event gets from outside: its type lookup, its decoded payload, the outcome of each send. */
  datatype EventInput = EventInput(
    device: Device,
    lookup: Result<seq<Service>, string>,
    payload: Option<Json>,
    eval: (string, Json) -> Option<bool>,
    sends: nat -> bool)

  predicate EventIsAllowed(stored: map<string, State>, d: Device) {
    !d.disabled && d.supported && d.interviewCompleted && d.ieee in stored && stored[d.ieee] == Online
  }

  function SendEffects(d: Device, ids: seq<string>, sends: nat -> bool, n: nat): seq<Effect>
    requires n <= |ids|
  {
    if n == 0 then []
    else
      var before := SendEffects(d, ids, sends, n - 1);
      if sends(n - 1) then before + [Sent(d, ids[n - 1], true)]
      else before + [Sent(d, ids[n - 1], false), DeviceError(d)]
  }

  function EventEffects(stored: map<string, State>, e: EventInput): seq<Effect> {
    if !EventIsAllowed(stored, e.device) then []
    else if e.lookup.Err? || e.payload.None? then [DeviceError(e.device)]
    else
      var ids := ["get"] + SelectedIds(e.lookup.value, e.payload.value, e.eval);
      SendEffects(e.device, ids, e.sends, |ids|)
  }

  /** The services the entries of a trace were sent to, in order. */
  function SentIds(effects: seq<Effect>): seq<string> {
    if effects == [] then []
    else
      var before := SentIds(effects[..|effects| - 1]);
      if effects[|effects| - 1].Sent? then before + [effects[|effects| - 1].serviceId] else before
  }

  lemma SentSnoc(effects: seq<Effect>, e: Effect)
    ensures SentIds(effects + [e]) == SentIds(effects) + if e.Sent? then [e.serviceId] else []
  {
    assert (effects + [e])[..|effects|] == effects;
  }

  lemma SendNext(d: Device, ids: seq<string>, sends: nat -> bool, n: nat)
    requires 0 < n <= |ids|
    ensures SentIds(SendEffects(d, ids, sends, n)) == SentIds(SendEffects(d, ids, sends, n - 1)) + [ids[n - 1]]
  {
    var before := SendEffects(d, ids, sends, n - 1);
    var sent := Sent(d, ids[n - 1], sends(n - 1));
    SentSnoc(before, sent);
    if !sends(n - 1) {
      SentSnoc(before + [sent], DeviceError(d));
      assert SendEffects(d, ids, sends, n) == before + [sent] + [DeviceError(d)];
    }
  }

  lemma {:induction false} SendsOnly(d: Device, ids: seq<string>, sends: nat -> bool, n: nat)
    requires n <= |ids|
    ensures forall e | e in SendEffects(d, ids, sends, n) :: (e.Sent? || e.DeviceError?) && e.device == d
  {
    if n > 0 {
      SendsOnly(d, ids, sends, n - 1);
    }
  }

  lemma {:induction false} SendMeaning(d: Device, ids: seq<string>, sends: nat -> bool, n: nat)
    requires n <= |ids|
    ensures SentIds(SendEffects(d, ids, sends, n)) == ids[..n]
  {
    if n > 0 {
      SendMeaning(d, ids, sends, n - 1);
      SendNext(d, ids, sends, n);
      assert ids[..n] == ids[..n - 1] + [ids[n - 1]];
    }
  }

  /** Every id is tried, whatever became of the ones before it. */
  lemma {:induction false} AllTried(d: Device, ids: seq<string>, sends: nat -> bool, n: nat, i: nat)
    requires i < n <= |ids|
    ensures Sent(d, ids[i], sends(i)) in SendEffects(d, ids, sends, n)
  {
    if i == n - 1 {
      var sent := Sent(d, ids[i], sends(i));
      assert SendEffects(d, ids, sends, n)[|SendEffects(d, ids, sends, i)|] == sent;
    } else {
      AllTried(d, ids, sends, n - 1, i);
    }
  }

  /** A device error follows each failed send, and nothing else. */
  ghost predicate ReportsFailures(effects: seq<Effect>) {
    forall p | 0 <= p < |effects| :: ReportedAt(effects, p)
  }

  ghost predicate ReportedAt(effects: seq<Effect>, p: nat)
    requires p < |effects|
  {
    && (effects[p].Sent? && !effects[p].ok ==> p + 1 < |effects| && effects[p + 1] == DeviceError(effects[p].device))
    && (effects[p].DeviceError? ==> p > 0 && effects[p - 1].Sent? && !effects[p - 1].ok)
  }

  lemma SentReported(before: seq<Effect>, d: Device, id: string, ok: bool)
    requires ReportsFailures(before)
    ensures ReportsFailures(before + if ok then [Sent(d, id, true)] else [Sent(d, id, false), DeviceError(d)])
  {
    var effects := before + if ok then [Sent(d, id, true)] else [Sent(d, id, false), DeviceError(d)];
    forall p | 0 <= p < |effects| ensures ReportedAt(effects, p) {
      if p < |before| {
        assert ReportedAt(before, p);
      } else {
        assert effects[|before|] == Sent(d, id, ok);
        assert !ok ==> effects[|before| + 1] == DeviceError(d);
      }
    }
  }

  lemma {:induction false} FailedSendsReported(d: Device, ids: seq<string>, sends: nat -> bool, n: nat)
    requires n <= |ids|
    ensures ReportsFailures(SendEffects(d, ids, sends, n))
  {
    if n > 0 {
      FailedSendsReported(d, ids, sends, n - 1);
      SentReported(SendEffects(d, ids, sends, n - 1), d, ids[n - 1], sends(n - 1));
    }
  }

  /** The ids of the services that take the event, each at its place. */
  lemma SelectedIdsMeaning(services: seq<Service>, value: Json, eval: (string, Json) -> Option<bool>)
    ensures forall id :: id in SelectedIds(services, value, eval)
              <==> exists i :: 0 <= i < |services| && services[i].localId == id && TakesEvent(services[i], value, eval)
    ensures Subsequence(SelectedIds(services, value, eval), LocalIds(services))
  {
    SelectedMeaning(services, value, eval);
    forall i | 0 <= i < |services| ensures Selected(services[i], value, eval) <==> TakesEvent(services[i], value, eval) {
      SelectedIffTakes(services[i], value, eval);
    }
  }

  /**
   Where an event goes: nowhere if the gate is closed; a device error if its type or its payload cannot be
   read; else to "get" and then to exactly the services that take it, in the order of the type, where a failed
   send is reported and does not stop the others.
   */
  lemma EventMeaning(stored: map<string, State>, e: EventInput)
    ensures var d := e.device;
      var open := !d.disabled && d.supported && d.interviewCompleted && d.ieee in stored && stored[d.ieee] == Online;
      var effects := EventEffects(stored, e);
      if !open then effects == []
      else if e.lookup.Err? || e.payload.None? then effects == [DeviceError(d)]
      else
        && (forall x | x in effects :: (x.Sent? || x.DeviceError?) && x.device == d)
        && SentIds(effects) != [] && SentIds(effects)[0] == "get"
        && (forall id :: id in SentIds(effects)[1..]
              <==> exists i :: 0 <= i < |e.lookup.value| && e.lookup.value[i].localId == id && TakesEvent(e.lookup.value[i], e.payload.value, e.eval))
        && Subsequence(SentIds(effects)[1..], LocalIds(e.lookup.value))
        && (forall i | 0 <= i < |SentIds(effects)| :: Sent(d, SentIds(effects)[i], e.sends(i)) in effects)
        && ReportsFailures(effects)
  {
    if e.lookup.Ok? && e.payload.Some? {
      var selected := SelectedIds(e.lookup.value, e.payload.value, e.eval);
      var ids := ["get"] + selected;
      SendMeaning(e.device, ids, e.sends, |ids|);
      SendsOnly(e.device, ids, e.sends, |ids|);
      FailedSendsReported(e.device, ids, e.sends, |ids|);
      forall i | 0 <= i < |ids| ensures Sent(e.device, ids[i], e.sends(i)) in SendEffects(e.device, ids, e.sends, |ids|) {
        AllTried(e.device, ids, e.sends, |ids|, i);
      }
      assert ids[..|ids|] == ids && ids[1..] == selected;
      SelectedIdsMeaning(e.lookup.value, e.payload.value, e.eval);
    }
  }

  // ---------- the loop as a state machine ----------

  const MIN_DELAY: nat := 1
  const MAX_DELAY: nat := 60

  function Min(a: nat, b: nat): nat {
    if a < b then a else b
  }

  /** A pass in progress: `answers` are those of the devices handled so far, `mark` is where its trace starts. */
  datatype Pass = Idle | Passing(devices: seq<Device>, answers: seq<Feedback>, wasFailing: set<string>, delay: nat, mark: nat)

  /**
   The first five fields are the variables of the loop and the stored device states. The others are its
   history: the last device list, the devices of it whose handling is finished, how many retries
   followed it, and the trace.
   */
  datatype Loop = Loop(
    pass: Pass, failed: seq<Device>, armed: bool, delay: nat, stored: map<string, State>,
    last: seq<Device>, done: seq<Device>, retries: nat, trace: seq<Effect>)

  const START := Loop(Idle, [], false, MIN_DELAY, map[], [], [], 0, [])

  datatype Step = NewList(devices: seq<Device>) | TimerFires | Handle(answer: Feedback) | Finish | Event(input: EventInput)

  /** Lists and the timer are received between passes; an event may come at any time, also within one. */
  predicate Enabled(s: Loop, step: Step) {
    match step
    case NewList(_) => s.pass.Idle?
    case TimerFires => s.pass.Idle? && s.armed
    case Handle(_) => s.pass.Passing? && |s.pass.answers| < |s.pass.devices|
    case Finish => s.pass.Passing? && |s.pass.answers| == |s.pass.devices|
    case Event(_) => true
  }

  function HandleNext(config: Config, s: Loop, a: Feedback): Loop
    requires Enabled(s, Handle(a))
  {
    var d := s.pass.devices[|s.pass.answers|];
    s.(pass := s.pass.(answers := s.pass.answers + [a]),
       stored := StoredAfter(config, s.stored, d, a),
       done := if Retried(d, a) then s.done else s.done + [d],
       trace := s.trace + Effects(config, d, a))
  }

  function Picked(config: Config, pass: Pass, group: Class): seq<Device>
    requires pass.Passing? && |pass.answers| <= |pass.devices|
  {
    Pick(config, pass.wasFailing, pass.devices, pass.answers, |pass.answers|, group)
  }

  function FinishPass(config: Config, s: Loop): Loop
    requires Enabled(s, Finish)
  {
    var failed := Picked(config, s.pass, Failed);
    var recovered := Picked(config, s.pass, Recovered);
    s.(pass := Idle, failed := failed, armed := failed != [], delay := s.pass.delay,
       trace := if recovered != [] then s.trace + [Refresh(recovered)] else s.trace)
  }

  function Apply(config: Config, s: Loop, step: Step): Loop
    requires Enabled(s, step)
  {
    match step
    case NewList(devices) =>
      s.(pass := Passing(devices, [], Ieees(s.failed), MIN_DELAY, |s.trace|), armed := false, last := devices, done := [], retries := 0)
    case TimerFires =>
      s.(pass := Passing(s.failed, [], Ieees(s.failed), Min(2 * s.delay, MAX_DELAY), |s.trace|), armed := false, retries := s.retries + 1)
    case Handle(a) => HandleNext(config, s, a)
    case Finish => FinishPass(config, s)
    case Event(e) => s.(trace := s.trace + EventEffects(s.stored, e))
  }

  /** The state after a sequence of steps, if each was enabled when it was taken. */
  function Run(config: Config, steps: seq<Step>): Option<Loop> {
    if steps == [] then Some(START)
    else
      match Run(config, steps[..|steps| - 1])
      case None => None
      case Some(s) =>
        var step := steps[|steps| - 1];
        if Enabled(s, step) then Some(Apply(config, s, step)) else None
  }

  lemma RunSnoc(config: Config, steps: seq<Step>, step: Step)
    requires Run(config, steps).Some? && Enabled(Run(config, steps).value, step)
    ensures Run(config, steps + [step]) == Some(Apply(config, Run(config, steps).value, step))
  {
    assert (steps + [step])[..|steps|] == steps;
  }
}
