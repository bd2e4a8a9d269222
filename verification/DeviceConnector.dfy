/** The device handling of the connector as it runs: one loop variable after the other, updated in place. */
module DeviceConnector {
  import opened Common
  import opened DeviceLoop
  import opened DeviceRuns

  // ---------- a whole pass of the state machine, with events in between ----------

  ghost function EventsDone(config: Config, s: Loop, events: seq<EventInput>): (t: Loop)
    ensures t == s.(trace := t.trace)
  {
    if events == [] then s
    else Apply(config, EventsDone(config, s, events[..|events| - 1]), Event(events[|events| - 1]))
  }

  /** The state after `n` devices, each preceded by the events that came before it. */
  ghost function Interleaved(config: Config, s: Loop, answers: seq<Feedback>, events: seq<seq<EventInput>>, n: nat): (t: Loop)
    requires s.pass.Passing? && s.pass.answers == [] && n <= |answers| == |s.pass.devices| && |events| == |answers| + 1
    ensures t.pass == s.pass.(answers := answers[..n])
    ensures t.failed == s.failed && t.delay == s.delay
  {
    if n == 0 then s
    else
      assert answers[..n] == answers[..n - 1] + [answers[n - 1]];
      HandleNext(config, EventsDone(config, Interleaved(config, s, answers, events, n - 1), events[n - 1]), answers[n - 1])
  }

  ghost function WholePass(config: Config, s: Loop, answers: seq<Feedback>, events: seq<seq<EventInput>>): Loop
    requires s.pass.Passing? && s.pass.answers == [] && |answers| == |s.pass.devices| && |events| == |answers| + 1
  {
    assert answers[..|answers|] == answers;
    FinishPass(config, EventsDone(config, Interleaved(config, s, answers, events, |answers|), events[|answers|]))
  }

  /** What a whole pass leaves: the events in between change neither the classes of its list nor its delay. */
  lemma WholePassMeaning(config: Config, s: Loop, answers: seq<Feedback>, events: seq<seq<EventInput>>)
    requires s.pass.Passing? && s.pass.answers == [] && |answers| == |s.pass.devices| && |events| == |answers| + 1
    ensures var t := WholePass(config, s, answers, events);
      && t.pass.Idle? && t.delay == s.pass.delay
      && t.failed == Pick(config, s.pass.wasFailing, s.pass.devices, answers, |answers|, Failed)
      && t.armed == (t.failed != [])
  {
    assert answers[..|answers|] == answers;
  }

  ghost predicate Reached(config: Config, s: Loop) {
    exists steps :: Run(config, steps) == Some(s)
  }

  lemma ReachedStart(config: Config)
    ensures Reached(config, START)
  {
    assert Run(config, []) == Some(START);
  }

  lemma ReachedStep(config: Config, s: Loop, step: Step)
    requires Reached(config, s) && Enabled(s, step)
    ensures Reached(config, Apply(config, s, step))
  {
    var steps :| Run(config, steps) == Some(s);
    RunSnoc(config, steps, step);
  }

  lemma {:induction false} ReachedEvents(config: Config, s: Loop, events: seq<EventInput>)
    requires Reached(config, s)
    ensures Reached(config, EventsDone(config, s, events))
  {
    if events != [] {
      ReachedEvents(config, s, events[..|events| - 1]);
      ReachedStep(config, EventsDone(config, s, events[..|events| - 1]), Event(events[|events| - 1]));
    }
  }

  lemma {:induction false} ReachedInterleaved(config: Config, s: Loop, answers: seq<Feedback>, events: seq<seq<EventInput>>, n: nat)
    requires s.pass.Passing? && s.pass.answers == [] && n <= |answers| == |s.pass.devices| && |events| == |answers| + 1
    requires Reached(config, s)
    ensures Reached(config, Interleaved(config, s, answers, events, n))
  {
    if n > 0 {
      var before := Interleaved(config, s, answers, events, n - 1);
      ReachedInterleaved(config, s, answers, events, n - 1);
      ReachedEvents(config, before, events[n - 1]);
      ReachedStep(config, EventsDone(config, before, events[n - 1]), Handle(answers[n - 1]));
    }
  }

  /** Beginning and completing a pass, with any events in between, extends any run that is between passes. */
  lemma ReachedPass(config: Config, s: Loop, begin: Step, answers: seq<Feedback>, events: seq<seq<EventInput>>)
    requires Reached(config, s) && (begin.NewList? || begin.TimerFires?) && Enabled(s, begin)
    requires |answers| == |Apply(config, s, begin).pass.devices| && |events| == |answers| + 1
    ensures Reached(config, WholePass(config, Apply(config, s, begin), answers, events))
  {
    var s1 := Apply(config, s, begin);
    var n := |answers|;
    ReachedStep(config, s, begin);
    ReachedInterleaved(config, s1, answers, events, n);
    ReachedEvents(config, Interleaved(config, s1, answers, events, n), events[n]);
    assert answers[..n] == answers;
    ReachedStep(config, EventsDone(config, Interleaved(config, s1, answers, events, n), events[n]), Finish);
  }

  lemma PickNext(config: Config, wasFailing: set<string>, devices: seq<Device>, answers: seq<Feedback>, i: nat)
    requires i < |devices| && i < |answers|
    ensures var d, a := devices[i], answers[i];
      && Pick(config, wasFailing, devices, answers, i + 1, Failed)
         == Pick(config, wasFailing, devices, answers, i, Failed) + (if Retried(d, a) then [d] else [])
      && Pick(config, wasFailing, devices, answers, i + 1, Recovered)
         == Pick(config, wasFailing, devices, answers, i, Recovered)
            + (if !Retried(d, a) && FailureOf(config, d, a).None? && d.ieee in wasFailing && !d.disabled then [d] else [])
      && LastError(devices, answers, i + 1)
         == (if Retried(d, a) then Some(Unreadable(a.read.message)) else LastError(devices, answers, i))
  {
  }

  method Addresses(devices: seq<Device>) returns (ieees: set<string>)
    ensures ieees == Ieees(devices)
  {
    ieees := {};
    for i := 0 to |devices|
      invariant ieees == Ieees(devices[..i])
    {
      assert devices[..i + 1] == devices[..i] + [devices[i]];
      ieees := ieees + {devices[i].ieee};
    }
    assert devices[..|devices|] == devices;
  }

  class Connector {
    const config: Config
    var devicestate: map<string, State>
    var failed: seq<Device>
    var armed: bool
    var delay: nat

    ghost var trace: seq<Effect>
    ghost var loop: Loop

    /** At any time, also within a pass, stored states and trace are those of a reachable state of the machine. */
    ghost predicate Linked()
      reads this
    {
      Reached(config, loop) && loop.stored == devicestate && loop.trace == trace
    }

    /** Between passes the variables of the loop are too. */
    ghost predicate Valid()
      reads this
    {
      && Linked()
      && loop.pass.Idle?
      && loop.failed == failed && loop.armed == armed && loop.delay == delay
    }

    constructor (config: Config)
      ensures Valid() && this.config == config && loop == START
    {
      this.config := config;
      devicestate := map[];
      failed := [];
      armed := false;
      delay := MIN_DELAY;
      trace := [];
      loop := START;
      new;
      ReachedStart(config);
    }

    method StoreDeviceState(ieee: string, state: State)
      modifies `devicestate
      ensures devicestate == old(devicestate)[ieee := state]
    {
      devicestate := devicestate[ieee := state];
    }

    method DeviceIsOnline(ieee: string) returns (online: bool)
      ensures online <==> StateOf(devicestate, ieee) == Some(Online)
    {
      online := ieee in devicestate && devicestate[ieee] == Online;
    }

    method HandleDeviceInfoUpdate(device: Device, a: Feedback) returns (report: Report)
      modifies `devicestate, `trace
      ensures report.retry <==> Retried(device, a)
      ensures report.err == FailureOf(config, device, a)
      ensures report.newDeviceType == if IsValidDevice(device) && a.read.NoMatch? && config.createMissing then a.creation.id else ""
      ensures devicestate == StoredAfter(config, old(devicestate), device, a)
      ensures trace == old(trace) + Effects(config, device, a)
    {
      report := Report("", None, false);
      if IsValidDevice(device) {
        var deviceTypeId;
        match a.read {
          case Found(id) =>
            deviceTypeId := id;
          case NoMatch =>
            if config.createMissing {
              deviceTypeId := a.creation.id;
              report := report.(newDeviceType := deviceTypeId);
              if a.creation.err.Some? {
                return report.(err := Some(NotCreated(a.creation.err.value)));
              }
            } else {
              trace := trace + [ClientError(device)];
              return report.(err := Some(NoMatchingType));
            }
          case ReadError(message) =>
            return report.(err := Some(Unreadable(message)), retry := true);
        }
        trace := trace + [Resolved(device, deviceTypeId)];
        var state := DeviceState(device);
        StoreDeviceState(device.ieee, state);
        trace := trace + [SetDevice(DeviceId(config, device), device.friendlyName, state, deviceTypeId, a.setErr.None?)];
        if a.setErr.Some? {
          return report.(err := Some(NotSet(a.setErr.value)));
        }
      }
    }

    /**
     `answers` are what the environment answers for the devices, one after the other; `events` are those
     the event goroutine handles before each device and after the last.
     */
    method HandleDeviceInfoUpdates(devices: seq<Device>, previouslyFailed: seq<Device>, answers: seq<Feedback>, events: seq<seq<EventInput>>)
      returns (nowFailed: seq<Device>, recovered: seq<Device>, err: Option<Failure>)
      requires Linked() && |answers| == |devices| && |events| == |devices| + 1
      requires Begun(devices, Ieees(previouslyFailed))
      modifies `devicestate, `trace, `loop
      ensures Linked()
      ensures loop == EventsDone(config, Interleaved(config, old(loop), answers, events, |devices|), events[|devices|])
      ensures nowFailed == Pick(config, Ieees(previouslyFailed), devices, answers, |devices|, Failed)
      ensures recovered == Pick(config, Ieees(previouslyFailed), devices, answers, |devices|, Recovered)
      ensures err == LastError(devices, answers, |devices|)
    {
      var wasFailing := Addresses(previouslyFailed);
      nowFailed, recovered, err := HandleEach(devices, wasFailing, answers, events);
      HandleEvents(events[|devices|]);
    }

    /** The machine has just begun a pass over these devices. */
    ghost predicate Begun(devices: seq<Device>, wasFailing: set<string>)
      reads this
    {
      loop.pass.Passing? && loop.pass.devices == devices && loop.pass.wasFailing == wasFailing && loop.pass.answers == []
    }

    method HandleEach(devices: seq<Device>, wasFailing: set<string>, answers: seq<Feedback>, events: seq<seq<EventInput>>)
      returns (nowFailed: seq<Device>, recovered: seq<Device>, err: Option<Failure>)
      requires Linked() && |answers| == |devices| && |events| == |devices| + 1
      requires Begun(devices, wasFailing)
      modifies `devicestate, `trace, `loop
      ensures Linked()
      ensures loop == Interleaved(config, old(loop), answers, events, |devices|)
      ensures nowFailed == Pick(config, wasFailing, devices, answers, |devices|, Failed)
      ensures recovered == Pick(config, wasFailing, devices, answers, |devices|, Recovered)
      ensures err == LastError(devices, answers, |devices|)
    {
      nowFailed, recovered, err := [], [], None;
      for i := 0 to |devices|
        invariant Linked() && loop == Interleaved(config, old(loop), answers, events, i)
        invariant nowFailed == Pick(config, wasFailing, devices, answers, i, Failed)
        invariant recovered == Pick(config, wasFailing, devices, answers, i, Recovered)
        invariant err == LastError(devices, answers, i)
      {
        PickNext(config, wasFailing, devices, answers, i);
        HandleEvents(events[i]);
        var device := devices[i];
        var report := HandleNextDevice(device, answers[i]);
        if report.retry {
          nowFailed := nowFailed + [device];
          err := report.err;
        } else if report.err.None? && device.ieee in wasFailing && !device.disabled {
          recovered := recovered + [device];
        }
      }
    }

    /** Handling the next device of the pass is a step of the machine. */
    method HandleNextDevice(device: Device, a: Feedback) returns (report: Report)
      requires Linked() && Enabled(loop, Handle(a)) && loop.pass.devices[|loop.pass.answers|] == device
      modifies `devicestate, `trace, `loop
      ensures Linked() && loop == HandleNext(config, old(loop), a)
      ensures (report.retry <==> Retried(device, a)) && report.err == FailureOf(config, device, a)
    {
      ReachedStep(config, loop, Handle(a));
      report := HandleDeviceInfoUpdate(device, a);
      loop := HandleNext(config, loop, a);
    }

    /** The end of an iteration of the loop: request the values of the recovered devices, arm the timer. */
    method EndIteration(recovered: seq<Device>)
      requires Linked() && Enabled(loop, Finish) && delay == loop.pass.delay
      requires failed == Picked(config, loop.pass, Failed) && recovered == Picked(config, loop.pass, Recovered)
      modifies `armed, `trace, `loop
      ensures Valid() && loop == FinishPass(config, old(loop))
    {
      ReachedStep(config, loop, Finish);
      loop := FinishPass(config, loop);
      if |recovered| > 0 {
        trace := trace + [Refresh(recovered)];
      }
      armed := false;
      if |failed| > 0 {
        armed := true;
      }
    }

    /** The loop receives a device list. */
    method ReceiveList(devices: seq<Device>, answers: seq<Feedback>, events: seq<seq<EventInput>>)
      requires Valid() && |answers| == |devices| && |events| == |answers| + 1
      modifies this
      ensures Valid()
      ensures loop == WholePass(config, Apply(config, old(loop), NewList(devices)), answers, events)
    {
      ReachedStep(config, loop, NewList(devices));
      loop := Apply(config, loop, NewList(devices));
      WholePassMeaning(config, loop, answers, events);
      assert answers[..|answers|] == answers;
      var recovered, err;
      failed, recovered, err := HandleDeviceInfoUpdates(devices, failed, answers, events);
      delay := MIN_DELAY;
      EndIteration(recovered);
    }

    /** The retry timer fires. */
    method ReceiveTimer(answers: seq<Feedback>, events: seq<seq<EventInput>>)
      requires Valid() && armed && |answers| == |failed| && |events| == |answers| + 1
      modifies this
      ensures Valid()
      ensures loop == WholePass(config, Apply(config, old(loop), TimerFires), answers, events)
    {
      ReachedStep(config, loop, TimerFires);
      loop := Apply(config, loop, TimerFires);
      WholePassMeaning(config, loop, answers, events);
      assert answers[..|answers|] == answers;
      var recovered, err;
      failed, recovered, err := HandleDeviceInfoUpdates(failed, failed, answers, events);
      delay := Min(2 * delay, MAX_DELAY);
      EndIteration(recovered);
    }

    /** A failed send is reported and does not keep the event from the other services. */
    method SendToAll(e: EventInput, ids: seq<string>)
      modifies `trace
      ensures trace == old(trace) + SendEffects(e.device, ids, e.sends, |ids|)
    {
      for i := 0 to |ids|
        invariant trace == old(trace) + SendEffects(e.device, ids, e.sends, i)
      {
        var ok := e.sends(i);
        trace := trace + [Sent(e.device, ids[i], ok)];
        if !ok {
          trace := trace + [DeviceError(e.device)];
        }
      }
    }

    method HandleEvents(events: seq<EventInput>)
      requires Linked()
      modifies `trace, `loop
      ensures Linked() && loop == EventsDone(config, old(loop), events)
    {
      for i := 0 to |events|
        invariant Linked() && loop == EventsDone(config, old(loop), events[..i])
      {
        assert events[..i + 1][..i] == events[..i];
        HandleEvent(events[i]);
      }
      assert events[..|events|] == events;
    }

    /** An event may come at any time, also within a pass. */
    method HandleEvent(e: EventInput)
      requires Linked()
      modifies `trace, `loop
      ensures Linked() && loop == Apply(config, old(loop), Event(e))
    {
      ReachedStep(config, loop, Event(e));
      loop := Apply(config, loop, Event(e));
      var online := DeviceIsOnline(e.device.ieee);
      if !e.device.disabled && e.device.supported && e.device.interviewCompleted && online {
        var serviceIds := None;
        if e.lookup.Ok? {
          serviceIds := GetServiceIds(e.lookup.value, e.payload, e.eval);
        }
        if serviceIds.None? {
          trace := trace + [DeviceError(e.device)];
          return;
        }
        SendToAll(e, serviceIds.value);
      }
    }
  }
}
