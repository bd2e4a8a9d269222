/**
 The device loop and the event handling together with the device-type repository they read: the type of a
 device is no longer an input of a step, but what the repository answers in the state it is in.
 */
module Registration {
  import opened Common
  import L = DeviceLoop
  import T = DeviceTypes

  datatype Env = Env(config: L.Config, horizon: T.Horizon, norm: string -> string)

  datatype System = System(loop: L.Loop, repo: T.History)

  function Start(now: int): System {
    System(L.START, T.History(T.EMPTY_REPO, [], now))
  }

  /** What the platform and the gateway answer while one device is handled. */
  datatype Input = Input(reply: T.Reply, call: T.Call, post: Result<DeviceType, string>, setErr: Option<string>)

  /** What they answer while one event is handled; the second call is the search by vendor and model. */
  datatype Event = Event(
    device: Device, reply: T.Reply, byId: T.Call, byMatch: T.Call,
    payload: Option<Json>, eval: (string, Json) -> Option<bool>, sends: nat -> bool)

  datatype Step = NewList(devices: seq<Device>) | TimerFires | Register(input: Input) | Finish | Dispatch(event: Event)

  // ---------- what the repository answers ----------

  function KnownAs(env: Env, r: T.Repo, d: Device, reply: T.Reply): Result<Option<string>, string> {
    T.KnownId(r, L.DeviceId(env.config, d), reply)
  }

  function AfterKnown(env: Env, repo: T.History, d: Device, reply: T.Reply): T.History {
    T.Apply(env.horizon, env.norm, repo, T.Known(L.DeviceId(env.config, d), reply))
  }

  predicate Timely(repo: T.History, call: T.Call) {
    T.Ordered(call) && repo.now <= call.t1
  }

  function Query(env: Env, repo: T.History, q: T.Query, call: T.Call): T.Outcome {
    T.Lookup(env.horizon, repo.repo, q, env.norm, call)
  }

  function AfterQuery(env: Env, repo: T.History, q: T.Query, call: T.Call): T.History
    requires Timely(repo, call)
  {
    T.Apply(env.horizon, env.norm, repo, T.Query(q, call))
  }

  /** The read of a device's type id. */
  function Read(env: Env, repo: T.History, d: Device, input: Input): L.TypeRead {
    match KnownAs(env, repo.repo, d, input.reply)
    case Err(message) => L.ReadError(message)
    case Ok(Some(id)) => L.Found(id)
    case Ok(None) =>
      match Query(env, repo, T.ForDevice(d), input.call).answer
      case Found(dt) => L.Found(dt.id)
      case NoMatch => L.NoMatch
      case Failed(message) => L.ReadError(message)
  }

  /** The creation that follows a read without a match, if it is enabled. */
  function Created(repo: T.Repo, d: Device, input: Input): L.Creation {
    match T.CreateAnswer(repo, T.CreationAttributes(d), input.post)
    case Ok(dt) => L.Creation(dt.id, None)
    case Err(message) => L.Creation("", Some(message))
  }

  /** The repository after the read, and after the creation if there was one; an invalid device is not looked up. */
  function AfterRegister(env: Env, repo: T.History, d: Device, input: Input): T.History
    requires Timely(repo, input.call)
  {
    if !L.IsValidDevice(d) then repo
    else
      var known := AfterKnown(env, repo, d, input.reply);
      if KnownAs(env, repo.repo, d, input.reply) != Ok(None) then known
      else
        var queried := AfterQuery(env, known, T.ForDevice(d), input.call);
        if Query(env, known, T.ForDevice(d), input.call).answer.NoMatch? && env.config.createMissing
        then T.Apply(env.horizon, env.norm, queried, T.Create(T.CreationAttributes(d), input.post))
        else queried
  }

  function FeedbackOf(env: Env, repo: T.History, d: Device, input: Input): L.Feedback {
    L.Feedback(Read(env, repo, d, input), Created(Query(env, repo, T.ForDevice(d), input.call).repo, d, input), input.setErr)
  }

  /** The type lookup of an event, as getEventDeviceType does it. */
  function EventAnswer(env: Env, repo: T.Repo, e: Event): T.Outcome {
    T.EventType(env.horizon, repo, L.DeviceId(env.config, e.device), e.device, env.norm, e.reply, e.byId, e.byMatch)
  }

  function AfterEvent(env: Env, repo: T.History, e: Event): T.History
    requires Timely(repo, e.byId) && T.Ordered(e.byMatch) && e.byId.l3.stamp <= e.byMatch.t1
  {
    var known := AfterKnown(env, repo, e.device, e.reply);
    match KnownAs(env, repo.repo, e.device, e.reply)
    case Ok(Some(id)) =>
      var queried := AfterQuery(env, known, T.ById(id), e.byId);
      if Query(env, known, T.ById(id), e.byId).answer.NoMatch? then AfterQuery(env, queried, T.ForDevice(e.device), e.byMatch) else queried
    case _ => AfterQuery(env, known, T.ForDevice(e.device), e.byMatch)
  }

  function EventInputOf(env: Env, repo: T.Repo, e: Event): L.EventInput {
    var answer := EventAnswer(env, repo, e).answer;
    var lookup := if answer.Found? then Ok(answer.deviceType.services) else Err("no type");
    L.EventInput(e.device, lookup, e.payload, e.eval, e.sends)
  }

  // ---------- steps and runs ----------

  /** The step of the device loop that a joint step is. */
  function LoopStep(env: Env, s: System, step: Step): L.Step {
    match step
    case NewList(devices) => L.NewList(devices)
    case TimerFires => L.TimerFires
    case Register(input) =>
      if s.loop.pass.Passing? && |s.loop.pass.answers| < |s.loop.pass.devices| then
        L.Handle(FeedbackOf(env, s.repo, s.loop.pass.devices[|s.loop.pass.answers|], input))
      else L.Finish
    case Finish => L.Finish
    case Dispatch(e) => L.Event(EventInputOf(env, s.repo.repo, e))
  }

  predicate Enabled(env: Env, s: System, step: Step) {
    && L.Enabled(s.loop, LoopStep(env, s, step))
    && (step.Register? ==> |s.loop.pass.answers| < |s.loop.pass.devices| && Timely(s.repo, step.input.call))
    && (step.Dispatch? ==>
          Timely(s.repo, step.event.byId) && T.Ordered(step.event.byMatch) && step.event.byId.l3.stamp <= step.event.byMatch.t1)
  }

  /** An event that the gate stops does not look up its type. */
  function RepoAfter(env: Env, s: System, step: Step): T.History
    requires Enabled(env, s, step)
  {
    match step
    case Register(input) => AfterRegister(env, s.repo, s.loop.pass.devices[|s.loop.pass.answers|], input)
    case Dispatch(e) => if L.EventIsAllowed(s.loop.stored, e.device) then AfterEvent(env, s.repo, e) else s.repo
    case _ => s.repo
  }

  function Apply(env: Env, s: System, step: Step): System
    requires Enabled(env, s, step)
  {
    System(L.Apply(env.config, s.loop, LoopStep(env, s, step)), RepoAfter(env, s, step))
  }

  function Run(env: Env, now: int, steps: seq<Step>): Option<System> {
    if steps == [] then Some(Start(now))
    else
      match Run(env, now, steps[..|steps| - 1])
      case None => None
      case Some(s) =>
        var step := steps[|steps| - 1];
        if Enabled(env, s, step) then Some(Apply(env, s, step)) else None
  }

  /** The steps of the repository are those of the connector's own type lookups. */
  lemma LookupsAgree(env: Env, repo: T.History, d: Device, input: Input)
    requires L.IsValidDevice(d) && Timely(repo, input.call)
    ensures var t := T.RegisteredTypeId(env.horizon, repo.repo, L.DeviceId(env.config, d), d, env.norm, input.reply, input.call);
      && Read(env, repo, d, input) == (match t.answer
                                       case Ok(id) => L.Found(id)
                                       case Err(Failed(message)) => L.ReadError(message)
                                       case Err(_) => L.NoMatch)
      && (!(t.answer == Err(T.NoMatch) && env.config.createMissing) ==> AfterRegister(env, repo, d, input).repo == t.repo)
  {
  }

  lemma EventLookupsAgree(env: Env, repo: T.History, e: Event)
    requires Timely(repo, e.byId) && T.Ordered(e.byMatch) && e.byId.l3.stamp <= e.byMatch.t1
    ensures AfterEvent(env, repo, e).repo == EventAnswer(env, repo.repo, e).repo
  {
  }

  // ---------- a joint run is a run of each part ----------

  ghost predicate LoopReached(env: Env, loop: L.Loop) {
    exists steps :: L.Run(env.config, steps) == Some(loop)
  }

  ghost predicate RepoReached(env: Env, start: T.History, repo: T.History) {
    exists steps :: T.Run(env.horizon, env.norm, start, steps) == Some(repo)
  }

  lemma RepoStep(env: Env, start: T.History, repo: T.History, step: T.Step)
    requires RepoReached(env, start, repo) && T.Enabled(repo, step)
    ensures RepoReached(env, start, T.Apply(env.horizon, env.norm, repo, step))
  {
    var steps :| T.Run(env.horizon, env.norm, start, steps) == Some(repo);
    T.RunSnoc(env.horizon, env.norm, start, steps, step);
  }

  lemma RegisterReached(env: Env, start: T.History, repo: T.History, d: Device, input: Input)
    requires RepoReached(env, start, repo) && Timely(repo, input.call)
    ensures RepoReached(env, start, AfterRegister(env, repo, d, input))
  {
    if L.IsValidDevice(d) {
      var known := AfterKnown(env, repo, d, input.reply);
      RepoStep(env, start, repo, T.Known(L.DeviceId(env.config, d), input.reply));
      if KnownAs(env, repo.repo, d, input.reply) == Ok(None) {
        RepoStep(env, start, known, T.Query(T.ForDevice(d), input.call));
        RepoStep(env, start, AfterQuery(env, known, T.ForDevice(d), input.call), T.Create(T.CreationAttributes(d), input.post));
      }
    }
  }

  lemma EventReached(env: Env, start: T.History, repo: T.History, e: Event)
    requires RepoReached(env, start, repo)
    requires Timely(repo, e.byId) && T.Ordered(e.byMatch) && e.byId.l3.stamp <= e.byMatch.t1
    ensures RepoReached(env, start, AfterEvent(env, repo, e))
  {
    var known := AfterKnown(env, repo, e.device, e.reply);
    RepoStep(env, start, repo, T.Known(L.DeviceId(env.config, e.device), e.reply));
    match KnownAs(env, repo.repo, e.device, e.reply)
    case Ok(Some(id)) =>
      RepoStep(env, start, known, T.Query(T.ById(id), e.byId));
      RepoStep(env, start, AfterQuery(env, known, T.ById(id), e.byId), T.Query(T.ForDevice(e.device), e.byMatch));
    case _ =>
      RepoStep(env, start, known, T.Query(T.ForDevice(e.device), e.byMatch));
  }

  lemma RepoAfterReached(env: Env, start: T.History, s: System, step: Step)
    requires RepoReached(env, start, s.repo) && Enabled(env, s, step)
    ensures RepoReached(env, start, RepoAfter(env, s, step))
  {
    match step
    case Register(input) => RegisterReached(env, start, s.repo, s.loop.pass.devices[|s.loop.pass.answers|], input);
    case Dispatch(e) => EventReached(env, start, s.repo, e);
    case _ =>
  }

  lemma LoopAfterReached(env: Env, loop: L.Loop, step: L.Step)
    requires LoopReached(env, loop) && L.Enabled(loop, step)
    ensures LoopReached(env, L.Apply(env.config, loop, step))
  {
    var steps :| L.Run(env.config, steps) == Some(loop);
    L.RunSnoc(env.config, steps, step);
  }

  /** Whatever holds in every run of the loop, and in every run of the repository, holds in every joint run. */
  lemma {:induction false} JointRunIsBoth(env: Env, now: int, steps: seq<Step>)
    requires Run(env, now, steps).Some?
    ensures LoopReached(env, Run(env, now, steps).value.loop)
    ensures RepoReached(env, Start(now).repo, Run(env, now, steps).value.repo)
  {
    if steps == [] {
      assert L.Run(env.config, []) == Some(L.START);
      assert T.Run(env.horizon, env.norm, Start(now).repo, []) == Some(Start(now).repo);
    } else {
      var before := steps[..|steps| - 1];
      JointRunIsBoth(env, now, before);
      var s := Run(env, now, before).value;
      LoopAfterReached(env, s.loop, LoopStep(env, s, steps[|steps| - 1]));
      RepoAfterReached(env, Start(now).repo, s, steps[|steps| - 1]);
    }
  }

  // ---------- a known device keeps its type ----------

  predicate IsKnown(s: System, id: string, typeId: string) {
    id in s.repo.repo.known && s.repo.repo.known[id] == typeId
  }

  /** Every registration of the device in this part of the trace is with that type. */
  predicate SetOnlyWith(trace: seq<L.Effect>, from: nat, id: string, typeId: string) {
    forall p | from <= p < |trace| && trace[p].SetDevice? && trace[p].id == id :: trace[p].typeId == typeId
  }

  lemma KnownAfterQuery(env: Env, repo: T.History, q: T.Query, call: T.Call)
    requires Timely(repo, call)
    ensures AfterQuery(env, repo, q, call).repo.known == repo.repo.known
  {
    T.AnswerIsSearch(env.horizon, repo.repo, q, env.norm, call);
  }

  lemma KnownStays(env: Env, s: System, step: Step, id: string)
    requires Enabled(env, s, step) && id in s.repo.repo.known
    ensures IsKnown(Apply(env, s, step), id, s.repo.repo.known[id])
  {
    match step
    case Register(input) =>
      var d := s.loop.pass.devices[|s.loop.pass.answers|];
      KnownAfterQuery(env, AfterKnown(env, s.repo, d, input.reply), T.ForDevice(d), input.call);
    case Dispatch(e) =>
      var known := AfterKnown(env, s.repo, e.device, e.reply);
      KnownAfterQuery(env, known, T.ForDevice(e.device), e.byMatch);
      match KnownAs(env, s.repo.repo, e.device, e.reply) {
        case Ok(Some(typeId)) =>
          KnownAfterQuery(env, known, T.ById(typeId), e.byId);
          KnownAfterQuery(env, AfterQuery(env, known, T.ById(typeId), e.byId), T.ForDevice(e.device), e.byMatch);
        case _ =>
      }
    case _ =>
  }

  /** One step extends the trace, and sets a known device only with its remembered type. */
  lemma StepSets(env: Env, s: System, step: Step, id: string)
    requires Enabled(env, s, step) && id in s.repo.repo.known
    ensures s.loop.trace <= Apply(env, s, step).loop.trace
    ensures SetOnlyWith(Apply(env, s, step).loop.trace, |s.loop.trace|, id, s.repo.repo.known[id])
  {
    match step
    case Register(input) =>
      var d := s.loop.pass.devices[|s.loop.pass.answers|];
      var effects := L.Effects(env.config, d, FeedbackOf(env, s.repo, d, input));
      assert Apply(env, s, step).loop.trace == s.loop.trace + effects;
    case Dispatch(e) =>
      NoEventSets(s.loop.stored, EventInputOf(env, s.repo.repo, e));
    case _ =>
  }

  lemma NoEventSets(stored: map<string, L.State>, e: L.EventInput)
    ensures forall x | x in L.EventEffects(stored, e) :: !x.SetDevice?
  {
    if e.lookup.Ok? && e.payload.Some? {
      var ids := ["get"] + L.SelectedIds(e.lookup.value, e.payload.value, e.eval);
      L.SendsOnly(e.device, ids, e.sends, |ids|);
    }
  }

  /** In every run, from the moment a device is known with a type, it is set with that type only. */
  lemma {:induction false} KnownDeviceKeepsType(env: Env, now: int, steps: seq<Step>, i: nat, id: string, typeId: string)
    requires i <= |steps| && Run(env, now, steps).Some? && Run(env, now, steps[..i]).Some?
    requires IsKnown(Run(env, now, steps[..i]).value, id, typeId)
    ensures var (s, t) := (Run(env, now, steps[..i]).value, Run(env, now, steps).value);
      && IsKnown(t, id, typeId)
      && s.loop.trace <= t.loop.trace
      && SetOnlyWith(t.loop.trace, |s.loop.trace|, id, typeId)
  {
    if i == |steps| {
      assert steps[..i] == steps;
    } else {
      var before := steps[..|steps| - 1];
      assert before[..i] == steps[..i];
      KnownDeviceKeepsType(env, now, before, i, id, typeId);
      var s := Run(env, now, before).value;
      KnownStays(env, s, steps[|steps| - 1], id);
      StepSets(env, s, steps[|steps| - 1], id);
    }
  }

  /** The events of such a device use the services of that type while a current list has it, without a load. */
  lemma KnownDeviceSendsWithType(env: Env, s: System, e: Event, typeId: string)
    requires IsKnown(s, L.DeviceId(env.config, e.device), typeId)
    requires !T.Older(s.repo.repo.refreshed, e.byId.t1, env.horizon.max) && T.Lists(s.repo.repo.types, typeId)
    ensures var o := EventAnswer(env, s.repo.repo, e);
      && o.answer.Found? && o.answer.deviceType.id == typeId && o.loads == []
      && EventInputOf(env, s.repo.repo, e).lookup == Ok(o.answer.deviceType.services)
  {
    T.TypesAgree(env.horizon, s.repo.repo, L.DeviceId(env.config, e.device), e.device, env.norm, e.reply, e.byId, e.byMatch);
  }
}
