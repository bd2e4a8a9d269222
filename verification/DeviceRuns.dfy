/** What holds in every run of the device loop and the event handling beside it. */
module DeviceRuns {
  import opened Common
  import opened DeviceLoop

  /** The delay after `k` retries since the last device list: doubled each time, capped. */
  function Backoff(k: nat): nat {
    Min(Power(k), MAX_DELAY)
  }

  function Power(k: nat): (p: nat)
    ensures p >= 1
  {
    if k == 0 then MIN_DELAY else 2 * Power(k - 1)
  }

  // ---------- what the trace says about a device ----------

  /** The device of the last entry that resolved a type for the address. */
  function LastResolved(trace: seq<Effect>, ieee: string): Option<Device> {
    if trace == [] then None
    else
      var last := trace[|trace| - 1];
      if last.Resolved? && last.device.ieee == ieee then Some(last.device) else LastResolved(trace[..|trace| - 1], ieee)
  }

  function StateOf(stored: map<string, State>, ieee: string): Option<State> {
    if ieee in stored then Some(stored[ieee]) else None
  }

  function StateBy(d: Option<Device>): Option<State> {
    if d.Some? then Some(DeviceState(d.value)) else None
  }

  /** The stored states are those of the last resolved devices. */
  ghost predicate StoredByTrace(stored: map<string, State>, trace: seq<Effect>) {
    forall ieee: string :: StateOf(stored, ieee) == StateBy(LastResolved(trace, ieee))
  }

  /** What has to precede an event: the last resolution for the address, of an enabled valid device. */
  predicate Gate(before: seq<Effect>, d: Device) {
    && !d.disabled && d.supported && d.interviewCompleted
    && var r := LastResolved(before, d.ieee);
       r.Some? && r.value.ieee == d.ieee && IsValidDevice(r.value) && !r.value.disabled
  }

  ghost predicate Gated(trace: seq<Effect>) {
    forall i | 0 <= i < |trace| && trace[i].Sent? :: Gate(trace[..i], trace[i].device)
  }

  ghost predicate OnlyValidResolved(trace: seq<Effect>) {
    forall i | 0 <= i < |trace| && trace[i].Resolved? :: IsValidDevice(trace[i].device)
  }

  lemma {:induction false} LastResolvedMeaning(trace: seq<Effect>, ieee: string)
    requires OnlyValidResolved(trace)
    ensures LastResolved(trace, ieee).Some? ==> LastResolved(trace, ieee).value.ieee == ieee && IsValidDevice(LastResolved(trace, ieee).value)
  {
    if trace != [] {
      LastResolvedMeaning(trace[..|trace| - 1], ieee);
    }
  }

  lemma LastResolvedSnoc(trace: seq<Effect>, e: Effect, ieee: string)
    ensures LastResolved(trace + [e], ieee)
         == if e.Resolved? && e.device.ieee == ieee then Some(e.device) else LastResolved(trace, ieee)
  {
    assert (trace + [e])[..|trace|] == trace;
  }

  lemma {:induction false} NothingResolved(trace: seq<Effect>, more: seq<Effect>, ieee: string)
    requires forall e | e in more :: !e.Resolved?
    ensures LastResolved(trace + more, ieee) == LastResolved(trace, ieee)
  {
    if more == [] {
      assert trace + more == trace;
    } else {
      var shorter := more[..|more| - 1];
      NothingResolved(trace, shorter, ieee);
      LastResolvedSnoc(trace + shorter, more[|more| - 1], ieee);
      assert trace + more == (trace + shorter) + [more[|more| - 1]];
    }
  }

  // ---------- the invariant ----------

  ghost predicate GateInv(s: Loop) {
    && StoredByTrace(s.stored, s.trace)
    && OnlyValidResolved(s.trace)
    && Gated(s.trace)
  }

  ghost predicate PassInv(config: Config, s: Loop) {
    match s.pass
    case Idle =>
      && s.armed == (s.failed != [])
      && s.delay == Backoff(s.retries)
      && multiset(s.last) == multiset(s.failed) + multiset(s.done)
    case Passing(devices, answers, wasFailing, delay, mark) =>
      && !s.armed
      && |answers| <= |devices|
      && wasFailing == Ieees(s.failed)
      && delay == Backoff(s.retries)
      && (s.retries > 0 ==> devices == s.failed)
      && multiset(s.last) == multiset(devices[|answers|..]) + multiset(Picked(config, s.pass, Failed)) + multiset(s.done)
  }

  /** What is handled or waits to be retried is in the order of the last list. */
  ghost predicate OrderInv(s: Loop) {
    Subsequence(if s.pass.Idle? then s.failed else s.pass.devices, s.last)
  }

  /** The effects of the devices handled so far are in `part`. */
  ghost predicate Traced(config: Config, devices: seq<Device>, answers: seq<Feedback>, part: seq<Effect>) {
    && |answers| <= |devices|
    && forall i, e | 0 <= i < |answers| && e in Effects(config, devices[i], answers[i]) :: e in part
  }

  /** The effects of the devices handled in this pass are in the part of the trace the pass has written. */
  ghost predicate PassTraced(config: Config, s: Loop) {
    s.pass.Passing? ==>
      s.pass.mark <= |s.trace| && Traced(config, s.pass.devices, s.pass.answers, s.trace[s.pass.mark..])
  }

  ghost predicate LoopInv(config: Config, s: Loop) {
    && (forall d | d in s.failed :: IsValidDevice(d))
    && PassInv(config, s)
    && OrderInv(s)
    && PassTraced(config, s)
    && GateInv(s)
  }

  // ---------- each step keeps it ----------

  lemma {:induction false} PickExtends(config: Config, wasFailing: set<string>, devices: seq<Device>, answers: seq<Feedback>, a: Feedback, n: nat, c: Class)
    requires n <= |answers| && n <= |devices|
    ensures Pick(config, wasFailing, devices, answers + [a], n, c) == Pick(config, wasFailing, devices, answers, n, c)
  {
    if n > 0 {
      PickExtends(config, wasFailing, devices, answers, a, n - 1, c);
    }
  }

  lemma BeginKeepsPass(config: Config, s: Loop, step: Step)
    requires Enabled(s, step) && (step.NewList? || step.TimerFires?)
    requires PassInv(config, s)
    ensures PassInv(config, Apply(config, s, step))
  {
    var t := Apply(config, s, step);
    assert t.pass.devices[0..] == t.pass.devices;
    assert Picked(config, t.pass, Failed) == [];
  }

  lemma StepKeepsOrder(config: Config, s: Loop, step: Step)
    requires Enabled(s, step) && OrderInv(s)
    ensures OrderInv(Apply(config, s, step))
  {
    match step
    case NewList(devices) => SubsequenceSelf(devices);
    case Finish => FinishKeepsOrder(config, s);
    case _ =>
  }

  lemma FinishKeepsOrder(config: Config, s: Loop)
    requires Enabled(s, Finish) && OrderInv(s)
    ensures OrderInv(FinishPass(config, s))
  {
    var n := |s.pass.devices|;
    PickedInOrder(config, s.pass.wasFailing, s.pass.devices, s.pass.answers, n, Failed);
    assert s.pass.devices[..n] == s.pass.devices;
    SubsequenceTransitive(Picked(config, s.pass, Failed), s.pass.devices, s.last);
  }

  /** The next device of the pass goes to the failed or to the finished ones. */
  lemma HandleMoves(config: Config, s: Loop, a: Feedback)
    requires Enabled(s, Handle(a))
    ensures var t := HandleNext(config, s, a);
      var d := s.pass.devices[|s.pass.answers|];
      && Picked(config, t.pass, Failed) == Picked(config, s.pass, Failed) + (if Retried(d, a) then [d] else [])
      && t.done == s.done + (if Retried(d, a) then [] else [d])
      && s.pass.devices[|s.pass.answers|..] == [d] + t.pass.devices[|t.pass.answers|..]
  {
    var t := HandleNext(config, s, a);
    var n := |s.pass.answers|;
    PickExtends(config, s.pass.wasFailing, s.pass.devices, s.pass.answers, a, n, Failed);
    PickGrows(config, s.pass.wasFailing, s.pass.devices, t.pass.answers, n + 1, Failed);
  }

  lemma Moved<T>(rest: seq<T>, failed: seq<T>, done: seq<T>, x: T, fails: bool)
    ensures multiset([x] + rest) + multiset(failed) + multiset(done)
         == multiset(rest) + multiset(failed + (if fails then [x] else [])) + multiset(done + (if fails then [] else [x]))
  {
  }

  lemma HandleKeepsPass(config: Config, s: Loop, a: Feedback)
    requires Enabled(s, Handle(a)) && PassInv(config, s)
    ensures PassInv(config, HandleNext(config, s, a))
  {
    var t := HandleNext(config, s, a);
    var d := s.pass.devices[|s.pass.answers|];
    HandleMoves(config, s, a);
    Moved(t.pass.devices[|t.pass.answers|..], Picked(config, s.pass, Failed), s.done, d, Retried(d, a));
  }

  lemma FinishKeepsPass(config: Config, s: Loop)
    requires Enabled(s, Finish) && PassInv(config, s)
    ensures PassInv(config, FinishPass(config, s))
  {
    assert s.pass.devices[|s.pass.devices|..] == [];
  }

  lemma FinishKeepsValid(config: Config, s: Loop)
    requires Enabled(s, Finish)
    ensures forall d | d in FinishPass(config, s).failed :: IsValidDevice(d)
  {
    forall d | d in FinishPass(config, s).failed ensures IsValidDevice(d) {
      PickedAt(config, s.pass.wasFailing, s.pass.devices, s.pass.answers, |s.pass.answers|, Failed, d);
    }
  }

  lemma BackoffStep(k: nat)
    ensures Min(2 * Backoff(k), MAX_DELAY) == Backoff(k + 1)
    ensures MIN_DELAY <= Backoff(k) <= MAX_DELAY
  {
  }

  /** Effects that resolve nothing and send nothing the gate would not allow keep the gate. */
  lemma AppendKeepsGate(stored: map<string, State>, trace: seq<Effect>, more: seq<Effect>)
    requires StoredByTrace(stored, trace) && OnlyValidResolved(trace) && Gated(trace)
    requires forall e | e in more :: !e.Resolved? && (e.Sent? ==> Gate(trace, e.device))
    ensures StoredByTrace(stored, trace + more) && OnlyValidResolved(trace + more) && Gated(trace + more)
  {
    var all := trace + more;
    forall ieee: string ensures StateOf(stored, ieee) == StateBy(LastResolved(all, ieee)) {
      NothingResolved(trace, more, ieee);
    }
    forall i | 0 <= i < |all| && all[i].Sent? ensures Gate(all[..i], all[i].device) {
      if i < |trace| {
        assert all[..i] == trace[..i] && all[i] == trace[i];
      } else {
        assert all[..i] == trace + more[..i - |trace|];
        NothingResolved(trace, more[..i - |trace|], all[i].device.ieee);
      }
    }
  }

  lemma ResolveKeepsGate(stored: map<string, State>, trace: seq<Effect>, d: Device, typeId: string)
    requires StoredByTrace(stored, trace) && OnlyValidResolved(trace) && Gated(trace) && IsValidDevice(d)
    ensures var all := trace + [Resolved(d, typeId)];
      StoredByTrace(stored[d.ieee := DeviceState(d)], all) && OnlyValidResolved(all) && Gated(all)
  {
    var all := trace + [Resolved(d, typeId)];
    var after := stored[d.ieee := DeviceState(d)];
    forall ieee: string ensures StateOf(after, ieee) == StateBy(LastResolved(all, ieee)) {
      LastResolvedSnoc(trace, Resolved(d, typeId), ieee);
      assert StateOf(stored, ieee) == StateBy(LastResolved(trace, ieee));
    }
    forall i | 0 <= i < |all| && all[i].Sent? ensures Gate(all[..i], all[i].device) {
      assert all[..i] == trace[..i] && all[i] == trace[i];
    }
  }

  lemma HandleKeepsGate(config: Config, s: Loop, a: Feedback)
    requires Enabled(s, Handle(a)) && GateInv(s)
    ensures GateInv(HandleNext(config, s, a))
  {
    var d := s.pass.devices[|s.pass.answers|];
    var id := TypeId(config, d, a);
    var more := Effects(config, d, a);
    if id.Some? {
      ResolveKeepsGate(s.stored, s.trace, d, id.value);
      AppendKeepsGate(s.stored[d.ieee := DeviceState(d)], s.trace + [more[0]], [more[1]]);
      assert s.trace + more == s.trace + [more[0]] + [more[1]];
    } else {
      AppendKeepsGate(s.stored, s.trace, more);
    }
  }

  lemma EventKeepsGate(config: Config, s: Loop, e: EventInput)
    requires GateInv(s)
    ensures GateInv(Apply(config, s, Event(e)))
  {
    var more := EventEffects(s.stored, e);
    forall x | x in more ensures !x.Resolved? && (x.Sent? ==> Gate(s.trace, x.device)) {
      assert EventIsAllowed(s.stored, e.device);
      if e.lookup.Ok? && e.payload.Some? {
        var ids := ["get"] + SelectedIds(e.lookup.value, e.payload.value, e.eval);
        SendsOnly(e.device, ids, e.sends, |ids|);
      }
      assert x.device == e.device;
      LastResolvedMeaning(s.trace, e.device.ieee);
      assert StateOf(s.stored, e.device.ieee) == StateBy(LastResolved(s.trace, e.device.ieee));
    }
    AppendKeepsGate(s.stored, s.trace, more);
  }

  lemma StepKeepsGate(config: Config, s: Loop, step: Step)
    requires Enabled(s, step) && GateInv(s)
    ensures GateInv(Apply(config, s, step))
  {
    match step
    case Handle(a) => HandleKeepsGate(config, s, a);
    case Event(e) => EventKeepsGate(config, s, e);
    case Finish =>
      var t := FinishPass(config, s);
      if t.trace != s.trace {
        AppendKeepsGate(s.stored, s.trace, [Refresh(Picked(config, s.pass, Recovered))]);
      }
    case _ =>
  }

  lemma HandleKeepsTraced(config: Config, s: Loop, a: Feedback)
    requires Enabled(s, Handle(a)) && PassTraced(config, s)
    ensures PassTraced(config, HandleNext(config, s, a))
  {
    var t := HandleNext(config, s, a);
    var more := Effects(config, s.pass.devices[|s.pass.answers|], a);
    var part := s.trace[s.pass.mark..];
    assert t.trace[s.pass.mark..] == part + more;
    forall i, e | 0 <= i < |t.pass.answers| && e in Effects(config, t.pass.devices[i], t.pass.answers[i]) ensures e in part + more {
      if i < |s.pass.answers| {
        assert t.pass.answers[i] == s.pass.answers[i];
      }
    }
  }

  lemma EventKeepsTraced(config: Config, s: Loop, e: EventInput)
    requires PassTraced(config, s)
    ensures PassTraced(config, Apply(config, s, Event(e)))
  {
    if s.pass.Passing? {
      var more := EventEffects(s.stored, e);
      assert (s.trace + more)[s.pass.mark..] == s.trace[s.pass.mark..] + more;
    }
  }

  lemma StepKeepsTraced(config: Config, s: Loop, step: Step)
    requires Enabled(s, step) && PassTraced(config, s)
    ensures PassTraced(config, Apply(config, s, step))
  {
    match step
    case Handle(a) => HandleKeepsTraced(config, s, a);
    case Event(e) => EventKeepsTraced(config, s, e);
    case _ =>
  }

  lemma StepKeepsInv(config: Config, s: Loop, step: Step)
    requires Enabled(s, step) && LoopInv(config, s)
    ensures LoopInv(config, Apply(config, s, step))
  {
    StepKeepsGate(config, s, step);
    StepKeepsTraced(config, s, step);
    StepKeepsOrder(config, s, step);
    match step
    case NewList(_) => BeginKeepsPass(config, s, step);
    case TimerFires => BeginKeepsPass(config, s, step);
    case Handle(a) => HandleKeepsPass(config, s, a);
    case Finish => FinishKeepsPass(config, s); FinishKeepsValid(config, s);
    case Event(_) =>
  }

  lemma {:induction false} Reachable(config: Config, steps: seq<Step>)
    requires Run(config, steps).Some?
    ensures LoopInv(config, Run(config, steps).value)
  {
    if steps != [] {
      var before := steps[..|steps| - 1];
      Reachable(config, before);
      StepKeepsInv(config, Run(config, before).value, steps[|steps| - 1]);
    }
  }

  // ---------- the theorems ----------

  /**
   Between passes, in every run: the devices to be retried are a subsequence of the last list, and
   together with the finished ones they are that list; the timer is armed iff there are any; the
   delay is the capped power of two.
   */
  lemma LoopHead(config: Config, steps: seq<Step>)
    requires Run(config, steps).Some? && Run(config, steps).value.pass.Idle?
    ensures var s := Run(config, steps).value;
      && Subsequence(s.failed, s.last)
      && multiset(s.last) == multiset(s.failed) + multiset(s.done)
      && (s.armed <==> s.failed != [])
      && s.delay == Backoff(s.retries) && MIN_DELAY <= s.delay <= MAX_DELAY
  {
    Reachable(config, steps);
    BackoffStep(Run(config, steps).value.retries);
  }

  /** The delays one after the other: 1, 2, 4, 8, 16, 32 seconds, and then a minute. */
  lemma {:induction false} BackoffValues(k: nat)
    ensures k < 6 ==> Backoff(k) == [1, 2, 4, 8, 16, 32][k]
    ensures k >= 6 ==> Backoff(k) == 60
  {
    if k > 6 {
      BackoffValues(k - 1);
      assert Power(k - 1) >= 60;
    } else {
      assert Power(0) == 1 && Power(1) == 2 && Power(2) == 4 && Power(3) == 8;
      assert Power(4) == 16 && Power(5) == 32 && Power(6) == 64;
    }
  }

  /** The entry at `p` tells the gateway what the entry before it resolved. */
  ghost predicate Registers(config: Config, trace: seq<Effect>, p: nat)
    requires p < |trace| && trace[p].SetDevice?
  {
    && p > 0 && trace[p - 1].Resolved?
    && var d := trace[p - 1].device;
    && d.supported && d.interviewCompleted && d.definition.vendor != "" && d.definition.model != "" && d.definition.exposes != []
    && trace[p].id == config.deviceIdPrefix + d.ieee && trace[p].name == d.friendlyName
    && trace[p].state == (if d.disabled then Offline else Online)
    && trace[p].typeId == trace[p - 1].typeId
  }

  ghost predicate AllRegister(config: Config, trace: seq<Effect>) {
    forall p | 0 <= p < |trace| && trace[p].SetDevice? :: Registers(config, trace, p)
  }

  lemma StepKeepsRegisters(config: Config, s: Loop, step: Step)
    requires Enabled(s, step) && AllRegister(config, s.trace)
    ensures AllRegister(config, Apply(config, s, step).trace)
  {
    var all := Apply(config, s, step).trace;
    match step
    case Handle(a) =>
      var d := s.pass.devices[|s.pass.answers|];
      HandlingMeaning(config, d, a);
      ExtendRegisters(config, s.trace, Effects(config, d, a));
    case Event(e) =>
      var more := EventEffects(s.stored, e);
      EventMeaning(s.stored, e);
      forall p | 0 <= p < |more| ensures !more[p].SetDevice? { assert more[p] in more; }
      ExtendRegisters(config, s.trace, more);
    case Finish =>
      if all != s.trace {
        ExtendRegisters(config, s.trace, [Refresh(Picked(config, s.pass, Recovered))]);
      }
    case _ =>
  }

  lemma ExtendRegisters(config: Config, trace: seq<Effect>, more: seq<Effect>)
    requires AllRegister(config, trace)
    requires forall p | 0 <= p < |more| && more[p].SetDevice? :: Registers(config, more, p)
    ensures AllRegister(config, trace + more)
  {
    var all := trace + more;
    forall p | 0 <= p < |all| && all[p].SetDevice? ensures Registers(config, all, p) {
      if p < |trace| {
        assert Registers(config, trace, p);
      } else {
        assert Registers(config, more, p - |trace|);
      }
    }
  }

  /**
   In every run a device is set at the gateway only if it is supported, interviewed and has vendor, model
   and exposes; under its own id and name, online iff enabled, with the type resolved for it just before.
   */
  lemma {:induction false} OnlyValidSet(config: Config, steps: seq<Step>)
    requires Run(config, steps).Some?
    ensures AllRegister(config, Run(config, steps).value.trace)
  {
    if steps != [] {
      var before := steps[..|steps| - 1];
      OnlyValidSet(config, before);
      StepKeepsRegisters(config, Run(config, before).value, steps[|steps| - 1]);
    }
  }

  // ---------- what is sent ----------

  /** Only event steps send. */
  lemma OnlyEventsSend(config: Config, s: Loop, step: Step)
    requires Enabled(s, step) && !step.Event?
    ensures s.trace <= Apply(config, s, step).trace
    ensures forall p | |s.trace| <= p < |Apply(config, s, step).trace| :: !Apply(config, s, step).trace[p].Sent?
  {
    if step.Handle? {
      HandlingMeaning(config, s.pass.devices[|s.pass.answers|], step.answer);
    }
  }

  lemma EventSends(config: Config, s: Loop, e: EventInput)
    ensures Apply(config, s, Event(e)).trace == s.trace + EventEffects(s.stored, e)
    ensures forall p | |s.trace| <= p < |Apply(config, s, Event(e)).trace| && Apply(config, s, Event(e)).trace[p].Sent? ::
              SentFor(e, Apply(config, s, Event(e)).trace[p])
  {
    var effects := EventEffects(s.stored, e);
    EventMeaning(s.stored, e);
    var all := s.trace + effects;
    forall p | |s.trace| <= p < |all| && all[p].Sent? ensures SentFor(e, all[p]) {
      var x := effects[p - |s.trace|];
      assert x in effects;
      SentListed(effects, x);
      var ids := SentIds(effects);
      if x.serviceId != "get" {
        assert x.serviceId in ids[1..];
      }
    }
  }

  /** The event goes to the service: "get", or one of the looked-up type that takes it. */
  ghost predicate GoesTo(e: EventInput, id: string) {
    && e.lookup.Ok? && e.payload.Some?
    && (id == "get" || exists j :: 0 <= j < |e.lookup.value| && e.lookup.value[j].localId == id
                                   && TakesEvent(e.lookup.value[j], e.payload.value, e.eval))
  }

  ghost predicate SentFor(e: EventInput, x: Effect)
    requires x.Sent?
  {
    x.device == e.device && GoesTo(e, x.serviceId)
  }

  lemma {:induction false} SentListed(effects: seq<Effect>, x: Effect)
    requires x in effects && x.Sent?
    ensures x.serviceId in SentIds(effects)
  {
    var init, last := effects[..|effects| - 1], effects[|effects| - 1];
    if last != x {
      assert effects == init + [last];
      SentListed(init, x);
    }
  }

  /** In every run each entry that sends something comes from an event step, and is for a service that takes the event. */
  lemma {:induction false} SentMeaning(config: Config, steps: seq<Step>, p: nat) returns (i: nat)
    requires Run(config, steps).Some?
    requires p < |Run(config, steps).value.trace| && Run(config, steps).value.trace[p].Sent?
    ensures i < |steps| && steps[i].Event? && SentFor(steps[i].input, Run(config, steps).value.trace[p])
  {
    var before := steps[..|steps| - 1];
    var step := steps[|steps| - 1];
    var s := Run(config, before).value;
    if p < |s.trace| {
      if step.Event? { EventSends(config, s, step.input); } else { OnlyEventsSend(config, s, step); }
      assert Run(config, steps).value.trace[p] == s.trace[p];
      i := SentMeaning(config, before, p);
      assert before[i] == steps[i];
    } else {
      if !step.Event? { OnlyEventsSend(config, s, step); }
      EventSends(config, s, step.input);
      i := |steps| - 1;
    }
  }

  /** Some entry of the trace, from the position on, sends for the device to the service. */
  ghost predicate SentFrom(trace: seq<Effect>, from: nat, d: Device, id: string) {
    exists p :: from <= p < |trace| && trace[p].Sent? && trace[p].device == d && trace[p].serviceId == id
  }

  lemma EventReaches(stored: map<string, State>, e: EventInput, trace: seq<Effect>, id: string)
    requires EventIsAllowed(stored, e.device) && GoesTo(e, id)
    ensures SentFrom(trace + EventEffects(stored, e), |trace|, e.device, id)
  {
    EventMeaning(stored, e);
    var effects := EventEffects(stored, e);
    var ids := SentIds(effects);
    assert id == "get" ==> ids[0] == id;
    assert id != "get" ==> id in ids[1..];
    var k :| 0 <= k < |ids| && ids[k] == id;
    var sent := Sent(e.device, ids[k], e.sends(k));
    var q :| 0 <= q < |effects| && effects[q] == sent;
    assert (trace + effects)[|trace| + q] == sent;
  }

  lemma TraceExtends(config: Config, s: Loop, step: Step)
    requires Enabled(s, step)
    ensures s.trace <= Apply(config, s, step).trace
  {
    if step.Event? { EventSends(config, s, step.input); } else { OnlyEventsSend(config, s, step); }
  }

  /** And every event for which the gate was open is sent, in the part of the trace that comes after it. */
  lemma {:induction false} TakersReached(config: Config, steps: seq<Step>, i: nat, id: string)
    requires Run(config, steps).Some? && i < |steps| && steps[i].Event? && Run(config, steps[..i]).Some?
    requires EventIsAllowed(Run(config, steps[..i]).value.stored, steps[i].input.device) && GoesTo(steps[i].input, id)
    ensures SentFrom(Run(config, steps).value.trace, |Run(config, steps[..i]).value.trace|, steps[i].input.device, id)
  {
    var before := steps[..|steps| - 1];
    var s := Run(config, before).value;
    if i < |steps| - 1 {
      assert before[..i] == steps[..i];
      TakersReached(config, before, i, id);
      TraceExtends(config, s, steps[|steps| - 1]);
    } else {
      EventSends(config, s, steps[i].input);
      EventReaches(s.stored, steps[i].input, s.trace, id);
    }
  }

  /** In every run, each event sent was let through by the gate at that moment. */
  lemma EventGate(config: Config, steps: seq<Step>, i: nat)
    requires Run(config, steps).Some?
    requires i < |Run(config, steps).value.trace| && Run(config, steps).value.trace[i].Sent?
    ensures var trace := Run(config, steps).value.trace; Gate(trace[..i], trace[i].device)
  {
    Reachable(config, steps);
  }

  /** The gate is open for a device iff the last resolution for its address was of an enabled device. */
  lemma AllowedIff(config: Config, steps: seq<Step>, d: Device)
    requires Run(config, steps).Some?
    ensures var s := Run(config, steps).value; EventIsAllowed(s.stored, d) <==> Gate(s.trace, d)
  {
    Reachable(config, steps);
    var s := Run(config, steps).value;
    LastResolvedMeaning(s.trace, d.ieee);
    assert StateOf(s.stored, d.ieee) == StateBy(LastResolved(s.trace, d.ieee));
  }

  /**
   The README says that the events of a device whose type cannot be read are dropped. That holds for a
   device never resolved before (AllowedIff); one that was resolved from an earlier list goes on sending.
   */
  lemma FailingDeviceStillSends(config: Config) returns (d: Device, steps: seq<Step>)
    ensures Run(config, steps).Some?
    ensures var s := Run(config, steps).value; d in s.failed && s.trace != [] && s.trace[|s.trace| - 1] == Sent(d, "get", true)
  {
    var exposed := Feature("binary", "state", 7, [], None, [], 0.0, String("ON"));
    d := Device("0x1", "lamp", true, false, true, Definition("v", "m", [exposed]));
    var found := Handle(Feedback(Found("t"), Creation("", None), None));
    var failing := Handle(Feedback(ReadError("stopped"), Creation("", None), None));
    var registered := Settle(config, [], d, found.answer);
    var unread := Settle(config, registered, d, failing.answer);
    var event := EventInput(d, Ok([]), Some(Null), (script, value) => None, (i: nat) => true);
    RunSnoc(config, unread, Event(event));
    steps := unread + [Event(event)];
    var s := Run(config, unread).value;
    assert EventIsAllowed(s.stored, d);
    var ids := ["get"] + SelectedIds([], Null, event.eval);
    assert ids == ["get"];
    assert SendEffects(d, ids, event.sends, 0) == [];
    assert EventEffects(s.stored, event) == [Sent(d, "get", true)];
  }

  /**
   The comment on handleDeviceInfoUpdates calls the recovered devices registered. In this run the type of a
   device cannot be read, and a new list has the device no longer supported: its values are requested
   although nothing was ever set.
   */
  lemma RecoveredButNeverSet(config: Config) returns (d: Device, steps: seq<Step>)
    ensures Run(config, steps).Some? && Run(config, steps).value.trace == [Refresh([d])]
    ensures !IsValidDevice(d) && d.ieee !in Run(config, steps).value.stored
  {
    var exposed := Feature("binary", "state", 7, [], None, [], 0.0, String("ON"));
    var before := Device("0x1", "lamp", true, false, true, Definition("v", "m", [exposed]));
    d := before.(supported := false);
    var failing := Settle(config, [], before, Feedback(ReadError("stopped"), Creation("", None), None));
    assert Run(config, failing).value.failed == [before];
    assert before.ieee in Ieees([before]);
    steps := Settle(config, failing, d, Feedback(NoMatch, Creation("", None), None));
  }

  /** A run extended by a new list of one device and its handling. */
  lemma Settle(config: Config, steps: seq<Step>, d: Device, a: Feedback) returns (all: seq<Step>)
    requires Run(config, steps).Some? && Run(config, steps).value.pass.Idle?
    ensures Run(config, all).Some?
    ensures var (s, t) := (Run(config, steps).value, Run(config, all).value);
      && t.pass.Idle?
      && t.failed == (if Retried(d, a) then [d] else [])
      && t.stored == StoredAfter(config, s.stored, d, a)
      && t.trace == s.trace + Effects(config, d, a)
                    + (if Classify(config, Ieees(s.failed), d, a) == Recovered then [Refresh([d])] else [])
  {
    var s := Run(config, steps).value;
    RunSnoc(config, steps, NewList([d]));
    var s1 := Apply(config, s, NewList([d]));
    RunSnoc(config, steps + [NewList([d])], Handle(a));
    var s2 := HandleNext(config, s1, a);
    RunSnoc(config, steps + [NewList([d])] + [Handle(a)], Finish);
    all := steps + [NewList([d])] + [Handle(a)] + [Finish];
    assert Pick(config, s2.pass.wasFailing, [d], [a], 0, Failed) == [];
    assert s2.pass.answers == [a];
    assert Pick(config, s2.pass.wasFailing, [d], [a], 0, Recovered) == [];
    var recovered := Picked(config, s2.pass, Recovered);
    assert recovered == Pick(config, s2.pass.wasFailing, [d], [a], 1, Recovered);
    assert recovered == if Classify(config, Ieees(s.failed), d, a) == Recovered then [d] else [];
    assert s2.trace == s.trace + Effects(config, d, a);
    assert s2.trace + [] == s2.trace;
    assert Picked(config, s2.pass, Failed) == Pick(config, s2.pass.wasFailing, [d], [a], 1, Failed);
  }

  /** The gateway took `d` as online in the part of the trace that belongs to the current pass. */
  ghost predicate SetInPass(config: Config, s: Loop, d: Device) {
    && s.pass.Passing? && s.pass.mark <= |s.trace|
    && exists id :: SetDevice(DeviceId(config, d), d.friendlyName, Online, id, true) in s.trace[s.pass.mark..]
  }

  /**
   In every run the values of a device are requested at the end of a pass iff it is enabled, had a failing
   type read before the pass, and was handled without an error in it.
   */
  lemma RefreshedIff(config: Config, steps: seq<Step>, d: Device)
    requires Run(config, steps).Some? && Enabled(Run(config, steps).value, Finish)
    ensures var s := Run(config, steps).value;
      (exists devices :: Apply(config, s, Finish).trace == s.trace + [Refresh(devices)] && d in devices)
        <==> && !d.disabled && (exists k :: 0 <= k < |s.failed| && s.failed[k].ieee == d.ieee)
             && exists i :: 0 <= i < |s.pass.devices| && s.pass.devices[i] == d && HandledWell(config, d, s.pass.answers[i])
  {
    Reachable(config, steps);
    var s := Run(config, steps).value;
    var trace := Apply(config, s, Finish).trace;
    var recovered := Picked(config, s.pass, Recovered);
    RecoveredIff(config, s.pass.wasFailing, s.pass.devices, s.pass.answers, |s.pass.answers|, d);
    if devices :| trace == s.trace + [Refresh(devices)] && d in devices {
      assert trace[|s.trace|] == Refresh(devices);
    }
    if d in recovered {
      assert trace == s.trace + [Refresh(recovered)];
    }
  }

  /**
   Every device recovered by a retry pass is enabled, was failing, and was set online successfully
   in that pass. (A pass over a new list can also return an invalid device: RecoveredButNeverSet.)
   */
  lemma RecoveredByRetry(config: Config, steps: seq<Step>, d: Device)
    requires Run(config, steps).Some? && Enabled(Run(config, steps).value, Finish)
    requires Run(config, steps).value.retries > 0
    requires d in Picked(config, Run(config, steps).value.pass, Recovered)
    ensures var s := Run(config, steps).value;
      d in s.failed && !d.disabled && SetInPass(config, s, d)
  {
    Reachable(config, steps);
    var s := Run(config, steps).value;
    var i := RecoveredMeaning(config, s.pass.wasFailing, s.pass.devices, s.pass.answers, |s.pass.answers|, d);
    var id := TypeId(config, d, s.pass.answers[i]).value;
    assert SetDevice(DeviceId(config, d), d.friendlyName, Online, id, true) in Effects(config, d, s.pass.answers[i]);
  }

  /** A pass without a failing read leaves nothing to retry and no timer. */
  lemma ReadableAgain(config: Config, s: Loop)
    requires Enabled(s, Finish)
    ensures var t := FinishPass(config, s);
      !t.armed <==> forall i | 0 <= i < |s.pass.devices| :: !Retried(s.pass.devices[i], s.pass.answers[i])
  {
    FailedIffUnreadable(config, s.pass.wasFailing, s.pass.devices, s.pass.answers, |s.pass.answers|);
  }

  /** Handling an invalid device, or one whose type is neither read nor created, leaves every stored state. */
  lemma OnlyResolvedStored(config: Config, s: Loop, a: Feedback, ieee: string)
    requires Enabled(s, Handle(a)) && GateInv(s)
    requires StateOf(HandleNext(config, s, a).stored, ieee) != StateOf(s.stored, ieee)
    ensures var d := s.pass.devices[|s.pass.answers|];
      && IsValidDevice(d) && d.ieee == ieee
      && (a.read.Found? || (a.read.NoMatch? && config.createMissing && a.creation.err.None?))
      && LastResolved(HandleNext(config, s, a).trace, ieee) == Some(d)
  {
    HandleKeepsGate(config, s, a);
    var d := s.pass.devices[|s.pass.answers|];
    var more := Effects(config, d, a);
    LastResolvedSnoc(s.trace, more[0], ieee);
    LastResolvedSnoc(s.trace + [more[0]], more[1], ieee);
    assert s.trace + more == s.trace + [more[0]] + [more[1]];
  }
}
