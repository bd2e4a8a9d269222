/**
 Which answer a command gets: for every run and every command, by what its publish or its read returned
 and by what became of its entry, and which states answer a waiting command.
 */
module AckOutcomes {
  import opened Common
  import opened FeatureTree
  import opened AckMatching
  import opened AckSections
  import opened AckProtocol
  import opened AckSafety
  import opened AckRuns
  import DeviceLoop

  // ---------- the part of a command's life that the registry does not take part in ----------

  /** A response attempt, followed by an error if it failed. */
  ghost predicate Responded(command: Command, data: string) {
    || command.answers == [Response(true, command.target, data)]
    || command.answers == [Response(false, command.target, data), Error(command.target.commandId, RespondFailed)]
  }

  ghost predicate Refused(command: Command, reason: Reason) {
    command.answers == [Error(command.target.commandId, reason)]
  }

  /** A `set` command without an entry. */
  ghost predicate DirectSetInv(command: Command) {
    match command.pc
    case SetStart => command.answers == []
    case Publishing => command.answers == []
    case Responding(data) => data == "" && command.published == Some(true) && command.answers == []
    case Refusing(PublishFailed) => command.published == Some(false) && command.answers == []
    case Refusing(RespondFailed) => command.published == Some(true) && command.answers == [Response(false, command.target, "")]
    case Finished => if command.published == Some(true) then Responded(command, "")
                     else command.published == Some(false) && Refused(command, PublishFailed)
    case _ => false
  }

  ghost predicate SetInv(cfg: Config, command: Command) {
    && command.read == None
    && (command.pc != SetStart ==>
          (command.ack.NoAck? <==> !cfg.acks || ExpectationOf(cfg.parse, command.data, command.exposes, command.lastState).None?))
    && (command.ack.NoAck? ==> DirectSetInv(command))
    && (!command.ack.NoAck? ==> command.pc.Publishing? || command.pc.Cancelling? || command.pc.Finished? || command.pc == Refusing(PublishFailed))
  }

  ghost predicate GetInv(command: Command) {
    && command.ack.NoAck? && command.published == None
    && match command.pc
       case GetStart => command.read == None && command.answers == []
       case Responding(data) => command.read == Some(Some(data)) && command.answers == []
       case Refusing(ReadFailed) => command.read == Some(None) && command.answers == []
       case Refusing(RespondFailed) =>
         command.read.Some? && command.read.value.Some? && command.answers == [Response(false, command.target, command.read.value.value)]
       case Finished =>
         && command.read.Some?
         && if command.read.value.Some? then Responded(command, command.read.value.value) else Refused(command, ReadFailed)
       case _ => false
  }

  ghost predicate UnknownInv(command: Command) {
    && command.ack.NoAck? && command.published == None && command.read == None
    && ((command.pc == Refusing(UnknownService) && command.answers == []) || (command.pc == Finished && Refused(command, UnknownService)))
  }

  ghost predicate OutcomeInv(cfg: Config, command: Command) {
    if command.foreign then !(cfg.prefix <= command.target.deviceId)
    else
      && command.target.deviceId == cfg.prefix + command.ieee
      && if command.target.serviceId == "set" then SetInv(cfg, command)
         else if command.target.serviceId == "get" then GetInv(command)
         else UnknownInv(command)
  }

  ghost predicate OutcomesInv(cfg: Config, s: System) {
    forall c | 0 <= c < |s.commands| :: OutcomeInv(cfg, s.commands[c])
  }

  lemma ArrivalOutcome(cfg: Config, deviceId: string, serviceId: string, commandId: string, data: string)
    ensures OutcomeInv(cfg, NewCommand(cfg, deviceId, serviceId, commandId, data))
  {
    if cfg.prefix <= deviceId {
      assert deviceId == cfg.prefix + deviceId[|cfg.prefix|..];
    }
  }

  /** A step changes at most one command, its own; the registry's goroutines only add answers of waiting commands. */
  ghost predicate Changes(s: System, t: System, c: nat) {
    && c < |s.commands| == |t.commands|
    && forall d | 0 <= d < |s.commands| && d != c :: t.commands[d] == s.commands[d]
  }

  lemma OwnStepOutcome(cfg: Config, s: System, t: System, c: nat)
    requires OutcomesInv(cfg, s) && Changes(s, t, c) && OutcomeInv(cfg, t.commands[c])
    ensures OutcomesInv(cfg, t)
  {
    forall d | 0 <= d < |t.commands| ensures OutcomeInv(cfg, t.commands[d]) {
      if d != c { assert OutcomeInv(cfg, s.commands[d]); }
    }
  }

  lemma BeginOutcome(cfg: Config, s: System, c: nat, exposes: seq<Feature>, lastState: Fields)
    requires OutcomesInv(cfg, s) && Enabled(s, BeginSet(c, exposes, lastState)) && !s.commands[c].foreign
    ensures OutcomesInv(cfg, DoBeginSet(cfg, s, c, exposes, lastState))
  {
    assert OutcomeInv(cfg, s.commands[c]);
    OwnStepOutcome(cfg, s, DoBeginSet(cfg, s, c, exposes, lastState), c);
  }

  lemma PublishOutcome(cfg: Config, s: System, c: nat, ok: bool)
    requires OutcomesInv(cfg, s) && Enabled(s, Publish(c, ok)) && !s.commands[c].foreign
    ensures OutcomesInv(cfg, DoPublish(s, c, ok))
  {
    assert OutcomeInv(cfg, s.commands[c]);
    OwnStepOutcome(cfg, s, DoPublish(s, c, ok), c);
  }

  lemma CancelOutcomes(cfg: Config, s: System, c: nat)
    requires OutcomesInv(cfg, s) && Enabled(s, CancelAck(c)) && !s.commands[c].foreign
    ensures OutcomesInv(cfg, DoCancel(s, c))
  {
    assert OutcomeInv(cfg, s.commands[c]);
    OwnStepOutcome(cfg, s, DoCancel(s, c), c);
  }

  lemma ReadOutcome(cfg: Config, s: System, c: nat, value: Option<string>)
    requires OutcomesInv(cfg, s) && Enabled(s, ReadState(c, value)) && !s.commands[c].foreign
    ensures OutcomesInv(cfg, Apply(cfg, s, ReadState(c, value)))
  {
    assert OutcomeInv(cfg, s.commands[c]);
    OwnStepOutcome(cfg, s, Apply(cfg, s, ReadState(c, value)), c);
  }

  lemma RefuseOutcome(cfg: Config, s: System, c: nat)
    requires OutcomesInv(cfg, s) && Enabled(s, Refuse(c)) && !s.commands[c].foreign
    ensures OutcomesInv(cfg, DoRefuse(s, c))
  {
    assert OutcomeInv(cfg, s.commands[c]);
    OwnStepOutcome(cfg, s, DoRefuse(s, c), c);
  }

  lemma RespondOutcome(cfg: Config, s: System, c: nat, ok: bool)
    requires OutcomesInv(cfg, s) && Enabled(s, Respond(c, ok)) && !s.commands[c].foreign
    ensures OutcomesInv(cfg, DoRespond(s, c, ok))
  {
    assert OutcomeInv(cfg, s.commands[c]);
    OwnStepOutcome(cfg, s, DoRespond(s, c, ok), c);
  }

  /** An answer added by a goroutine of the registry, to a waiting `set` command. */
  lemma SayOutcome(cfg: Config, s: System, id: nat, answer: Answer)
    requires OutcomesInv(cfg, s) && Owned(s, id) && s.commands[s.owner[id]].ack.Waits?
    ensures OutcomesInv(cfg, Say(s, id, answer))
  {
    assert OutcomeInv(cfg, s.commands[s.owner[id]]);
    OwnStepOutcome(cfg, s, Say(s, id, answer), s.owner[id]);
  }

  lemma OwnerWaits(cfg: Config, s: System, id: nat)
    requires SystemInv(cfg, s) && id < |s.reg.entries|
    ensures Owned(s, id) && s.commands[s.owner[id]].ack == Waits(id)
  {
    assert OwnerInv(s, id);
  }

  lemma NotForeign(cfg: Config, s: System, c: nat)
    requires SystemInv(cfg, s) && c < |s.commands| && s.commands[c].pc != Finished
    ensures !s.commands[c].foreign
  {
    assert CommandInv(cfg, s, c);
  }

  lemma StepKeepsOutcomes(cfg: Config, s: System, step: Step)
    requires SystemInv(cfg, s) && Enabled(s, step) && OutcomesInv(cfg, s)
    ensures OutcomesInv(cfg, Apply(cfg, s, step))
  {
    match step
    case Arrive(deviceId, serviceId, commandId, data) => ArrivalOutcome(cfg, deviceId, serviceId, commandId, data);
    case BeginSet(c, exposes, lastState) => NotForeign(cfg, s, c); BeginOutcome(cfg, s, c, exposes, lastState);
    case ReadState(c, value) => NotForeign(cfg, s, c); ReadOutcome(cfg, s, c, value);
    case Publish(c, ok) => NotForeign(cfg, s, c); PublishOutcome(cfg, s, c, ok);
    case CancelAck(c) => NotForeign(cfg, s, c); CancelOutcomes(cfg, s, c);
    case Refuse(c) => NotForeign(cfg, s, c); RefuseOutcome(cfg, s, c);
    case Respond(c, ok) => NotForeign(cfg, s, c); RespondOutcome(cfg, s, c, ok);
    case TimeoutError(id) => OwnerWaits(cfg, s, id); SayOutcome(cfg, s, id, Error(s.reg.entries[id].target.commandId, Timeout));
    case DeliveryResponds(id, ok) => OwnerWaits(cfg, s, id); SayOutcome(cfg, s, id, Response(ok, s.reg.entries[id].target, s.deliveries[id].data));
    case DeliveryFails(id) => OwnerWaits(cfg, s, id); SayOutcome(cfg, s, id, Error(s.reg.entries[id].target.commandId, RespondFailed));
    case _ =>
  }

  lemma {:induction false} OutcomesHold(cfg: Config, steps: seq<Step>)
    requires Run(cfg, steps).Some?
    ensures OutcomesInv(cfg, Run(cfg, steps).value)
  {
    if steps != [] {
      var before := steps[..|steps| - 1];
      OutcomesHold(cfg, before);
      Reachable(cfg, before);
      StepKeepsOutcomes(cfg, Run(cfg, before).value, steps[|steps| - 1]);
    }
  }

  // ---------- every outcome ----------

  /** Some key of the payload is waited for. */
  ghost predicate HasWaitedKey(cfg: Config, command: Command) {
    var payload := ParseFields(cfg.parse, command.data);
    payload.Some? && exists key :: key in Expectation(payload.value, command.exposes, command.lastState)
  }

  lemma WaitsForSomething(cfg: Config, command: Command)
    ensures ExpectationOf(cfg.parse, command.data, command.exposes, command.lastState).Some? <==> HasWaitedKey(cfg, command)
  {
    var payload := ParseFields(cfg.parse, command.data);
    if payload.Some? {
      var expected := Expectation(payload.value, command.exposes, command.lastState);
      if expected != map[] {
        assert expected.Keys != {};
        var key :| key in expected.Keys;
        assert key in expected;
      }
    }
  }

  /**
   A `set` command that has no key to wait for, or that comes while the acknowledgement is off: answered by
   its publish alone, with the empty response after a successful one and an error after a failed one.
   */
  lemma UnacknowledgedSet(cfg: Config, steps: seq<Step>, c: nat)
    requires Run(cfg, steps).Some? && c < |Run(cfg, steps).value.commands|
    requires var command := Run(cfg, steps).value.commands[c];
      !command.foreign && command.target.serviceId == "set" && command.pc == Finished && command.ack.NoAck?
    ensures var command := Run(cfg, steps).value.commands[c];
      && (!cfg.acks || !HasWaitedKey(cfg, command))
      && command.published.Some?
      && (command.published == Some(false) ==> command.answers == [Error(command.target.commandId, PublishFailed)])
      && (command.published == Some(true) ==>
            || command.answers == [Response(true, command.target, "")]
            || command.answers == [Response(false, command.target, ""), Error(command.target.commandId, RespondFailed)])
  {
    OutcomesHold(cfg, steps);
    var command := Run(cfg, steps).value.commands[c];
    assert OutcomeInv(cfg, command);
    WaitsForSomething(cfg, command);
  }

  /** A `set` command that comes to a closed registry: an error after a failed publish, and nothing after a successful one. */
  lemma LateSet(cfg: Config, steps: seq<Step>, c: nat)
    requires Run(cfg, steps).Some? && c < |Run(cfg, steps).value.commands|
    requires Run(cfg, steps).value.commands[c].ack.Late? && Run(cfg, steps).value.commands[c].pc == Finished
    ensures var command := Run(cfg, steps).value.commands[c];
      && Run(cfg, steps).value.reg.closed && command.published.Some?
      && (command.published == Some(false) ==> command.answers == [Error(command.target.commandId, PublishFailed)])
      && (command.published == Some(true) ==> command.answers == [])
  {
    Reachable(cfg, steps);
    assert CommandInv(cfg, Run(cfg, steps).value, c);
    var published: bool := Run(cfg, steps).value.commands[c].published.value;
    assert Run(cfg, steps).value.commands[c].published == Some(published);
  }

  /**
   A waiting `set` command that is quiet: answered by a response, with the error that reports a failed one,
   if its entry was matched; by a timeout if it expired; by a publish error if it was cancelled, which only
   a failed publish does; and by nothing if shutdown dropped it.
   */
  lemma WaitingSet(cfg: Config, steps: seq<Step>, c: nat)
    requires Run(cfg, steps).Some? && c < |Run(cfg, steps).value.commands|
    requires Run(cfg, steps).value.commands[c].ack.Waits? && Quiet(Run(cfg, steps).value, c)
    ensures var s := Run(cfg, steps).value;
      var command := s.commands[c];
      && cfg.acks && HasWaitedKey(cfg, command) && command.ack.id < |s.reg.entries|
      && match s.reg.entries[command.ack.id].status
         case Matched => exists data :: Responded(command, data)
         case Expired => command.answers == [Error(command.target.commandId, Timeout)]
         case Cancelled => command.published == Some(false) && command.answers == [Error(command.target.commandId, PublishFailed)]
         case Dropped => command.answers == []
         case Pending => false
  {
    Reachable(cfg, steps);
    OutcomesHold(cfg, steps);
    var s := Run(cfg, steps).value;
    var command := s.commands[c];
    assert CommandInv(cfg, s, c) && WaitsInv(cfg, s, c);
    assert OutcomeInv(cfg, command);
    WaitsForSomething(cfg, command);
    var e := s.reg.entries[command.ack.id];
    if e.status == Matched {
      assert Delivered(cfg, e, command.answers);
      assert Responded(command, command.answers[0].data);
    }
  }

  /** A `get` command is answered with exactly what its read returned, or with an error if the read failed. */
  lemma GetOutcome(cfg: Config, steps: seq<Step>, c: nat)
    requires Run(cfg, steps).Some? && c < |Run(cfg, steps).value.commands|
    requires var command := Run(cfg, steps).value.commands[c];
      !command.foreign && command.target.serviceId == "get" && command.pc == Finished
    ensures var command := Run(cfg, steps).value.commands[c];
      match command.read
      case Some(Some(value)) =>
        || command.answers == [Response(true, command.target, value)]
        || command.answers == [Response(false, command.target, value), Error(command.target.commandId, RespondFailed)]
      case Some(None) => command.answers == [Error(command.target.commandId, ReadFailed)]
      case None => false
  {
    OutcomesHold(cfg, steps);
    assert OutcomeInv(cfg, Run(cfg, steps).value.commands[c]);
  }

  /** Any other service is refused; a command for a device id without the prefix is ignored. */
  lemma OtherOutcome(cfg: Config, steps: seq<Step>, c: nat)
    requires Run(cfg, steps).Some? && c < |Run(cfg, steps).value.commands| && Run(cfg, steps).value.commands[c].pc == Finished
    ensures var command := Run(cfg, steps).value.commands[c];
      && (command.foreign <==> !(cfg.prefix <= command.target.deviceId))
      && (command.foreign ==> command.answers == [])
      && (!command.foreign && command.target.serviceId != "set" && command.target.serviceId != "get" ==>
            command.answers == [Error(command.target.commandId, UnknownService)])
  {
    OutcomesHold(cfg, steps);
    Reachable(cfg, steps);
    assert CommandInv(cfg, Run(cfg, steps).value, c);
    assert OutcomeInv(cfg, Run(cfg, steps).value.commands[c]);
  }

  // ---------- what the outcomes refer to ----------

  /** What a step that is not its publish leaves of a command's publish outcome. */
  lemma PublishedStays(cfg: Config, s: System, step: Step, c: nat)
    requires Enabled(s, step) && !(step.Publish? && step.c == c)
    ensures var t := Apply(cfg, s, step);
      && (c < |s.commands| ==> c < |t.commands| && t.commands[c].published == s.commands[c].published)
      && (|s.commands| <= c < |t.commands| ==> t.commands[c].published == None)
  {
  }

  /** `published` is what the publish of the command returned in the run. */
  lemma {:induction false} PublishHistory(cfg: Config, steps: seq<Step>, c: nat, ok: bool)
    requires Run(cfg, steps).Some?
    ensures Publish(c, ok) in steps <==> c < |Run(cfg, steps).value.commands| && Run(cfg, steps).value.commands[c].published == Some(ok)
  {
    if steps != [] {
      var before, step := steps[..|steps| - 1], steps[|steps| - 1];
      var s := Run(cfg, before).value;
      PublishHistory(cfg, before, c, ok);
      assert steps == before + [step];
      if step.Publish? && step.c == c {
        Reachable(cfg, before);
        assert CommandInv(cfg, s, c);
      } else {
        PublishedStays(cfg, s, step, c);
      }
    }
  }

  lemma ReadStays(cfg: Config, s: System, step: Step, c: nat)
    requires Enabled(s, step) && !(step.ReadState? && step.c == c)
    ensures var t := Apply(cfg, s, step);
      && (c < |s.commands| ==> c < |t.commands| && t.commands[c].read == s.commands[c].read)
      && (|s.commands| <= c < |t.commands| ==> t.commands[c].read == None)
  {
  }

  /** `read` is what the read of the command returned in the run. */
  lemma {:induction false} ReadHistory(cfg: Config, steps: seq<Step>, c: nat, value: Option<string>)
    requires Run(cfg, steps).Some?
    ensures ReadState(c, value) in steps <==> c < |Run(cfg, steps).value.commands| && Run(cfg, steps).value.commands[c].read == Some(value)
  {
    if steps != [] {
      var before, step := steps[..|steps| - 1], steps[|steps| - 1];
      var s := Run(cfg, before).value;
      ReadHistory(cfg, before, c, value);
      assert steps == before + [step];
      if step.ReadState? && step.c == c {
        ReadOnce(cfg, before, c);
      } else {
        ReadStays(cfg, s, step, c);
      }
    }
  }

  lemma ReadOnce(cfg: Config, steps: seq<Step>, c: nat)
    requires Run(cfg, steps).Some? && c < |Run(cfg, steps).value.commands| && Run(cfg, steps).value.commands[c].pc == GetStart
    ensures Run(cfg, steps).value.commands[c].read == None
  {
    Reachable(cfg, steps);
    NotForeign(cfg, Run(cfg, steps).value, c);
    OutcomesHold(cfg, steps);
    assert OutcomeInv(cfg, Run(cfg, steps).value.commands[c]);
  }

  /** The commands that arrived, in order. */
  function Arrivals(steps: seq<Step>): seq<Step> {
    if steps == [] then []
    else
      var before := Arrivals(steps[..|steps| - 1]);
      if steps[|steps| - 1].Arrive? then before + [steps[|steps| - 1]] else before
  }

  lemma CommandsStay(cfg: Config, s: System, step: Step)
    requires Enabled(s, step) && !step.Arrive?
    ensures var t := Apply(cfg, s, step);
      && |t.commands| == |s.commands|
      && forall c | 0 <= c < |s.commands| :: t.commands[c].target == s.commands[c].target && t.commands[c].data == s.commands[c].data
  {
  }

  /** Every command is one that arrived, for the device, service, command id and data it arrived with. */
  lemma {:induction false} ArrivalHistory(cfg: Config, steps: seq<Step>)
    requires Run(cfg, steps).Some?
    ensures |Run(cfg, steps).value.commands| == |Arrivals(steps)|
    ensures forall c | 0 <= c < |Arrivals(steps)| ::
              var a, command := Arrivals(steps)[c], Run(cfg, steps).value.commands[c];
              a.Arrive? && command.target == Target(a.deviceId, a.serviceId, a.commandId) && command.data == a.data
  {
    if steps != [] {
      var before, step := steps[..|steps| - 1], steps[|steps| - 1];
      ArrivalHistory(cfg, before);
      if !step.Arrive? {
        CommandsStay(cfg, Run(cfg, before).value, step);
      }
    }
  }

  /** A command sent to the id of a device is for the address of that device. */
  lemma CommandReachesDevice(cfg: Config, config: DeviceLoop.Config, d: Device, serviceId: string, commandId: string, data: string)
    requires cfg.prefix == config.deviceIdPrefix
    ensures var command := NewCommand(cfg, DeviceLoop.DeviceId(config, d), serviceId, commandId, data);
      !command.foreign && command.ieee == d.ieee
  {
    assert (config.deviceIdPrefix + d.ieee)[|cfg.prefix|..] == d.ieee;
  }

  // ---------- which states answer ----------

  /** The state shows every key the command waits for with a value that agrees or is expected to toggle. */
  ghost predicate Shows(cfg: Config, command: Command, state: Fields) {
    var payload := ParseFields(cfg.parse, command.data);
    && payload.Some?
    && forall key | key in Expectation(payload.value, command.exposes, command.lastState) ::
         key in state && (IsToggle(cfg.fold, payload.value[key]) || Agree(cfg.fold, payload.value[key], state[key]))
  }

  lemma EntryFacts(cfg: Config, s: System, c: nat)
    requires SystemInv(cfg, s) && c < |s.commands| && s.commands[c].ack.Waits?
    ensures var id := s.commands[c].ack.id;
      && id < |s.reg.entries| && s.reg.entries[id].ieee == s.commands[c].ieee
      && (s.reg.entries[id].status == Pending ==> id !in s.deliveries)
      && forall state :: Matches(cfg.fold, s.reg.entries[id].expected, state) <==> Shows(cfg, s.commands[c], state)
  {
    assert CommandInv(cfg, s, c) && WaitsInv(cfg, s, c);
    var id := s.commands[c].ack.id;
    assert OwnerInv(s, id);
    var command := s.commands[c];
    var payload := ParseFields(cfg.parse, command.data).value;
    assert s.reg.entries[id].expected == Expectation(payload, command.exposes, command.lastState);
    forall state ensures Matches(cfg.fold, s.reg.entries[id].expected, state) <==> Shows(cfg, command, state) {
      MatchesMeaning(cfg.fold, s.reg.entries[id].expected, state);
    }
  }

  /** An Observe call for the device of a pending entry goes on to its match section; one for a device without any does not. */
  lemma ObserveStarts(cfg: Config, steps: seq<Step>, ieee: string, payload: string)
    requires Run(cfg, steps).Some?
    ensures var s := Run(cfg, steps).value;
      var t := Apply(cfg, s, ObserveBegins(ieee, payload));
      t.observers == s.observers
        + if exists id :: 0 <= id < |s.reg.entries| && s.reg.entries[id].status == Pending && s.reg.entries[id].ieee == ieee
          then [Observer(ieee, payload, false)] else []
  {
    Reachable(cfg, steps);
    var s := Run(cfg, steps).value;
    if HasPending(s.reg, ieee) {
      assert ListInv(s.reg, ieee);
      var id := s.reg.pending[ieee][0];
      assert id in s.reg.pending[ieee] && EntryInv(s.reg, id);
    }
    if id :| 0 <= id < |s.reg.entries| && s.reg.entries[id].status == Pending && s.reg.entries[id].ieee == ieee {
      assert EntryInv(s.reg, id);
    }
  }

  /**
   A match section answers a pending command iff the payload is a state of its device that shows all it
   waits for; with any other payload the entry stays as it is, no delivery starts, and nothing is answered.
   */
  lemma AnsweredIffShown(cfg: Config, steps: seq<Step>, c: nat, o: nat)
    requires Run(cfg, steps).Some? && Enabled(Run(cfg, steps).value, ObserveMatches(o))
    requires var s := Run(cfg, steps).value;
      && c < |s.commands| && s.commands[c].ack.Waits? && s.commands[c].ack.id < |s.reg.entries|
      && s.reg.entries[s.commands[c].ack.id].status == Pending
    ensures var s := Run(cfg, steps).value;
      var t := Apply(cfg, s, ObserveMatches(o));
      var id := s.commands[c].ack.id;
      var state := ParseFields(cfg.parse, s.observers[o].payload);
      && id < |t.reg.entries| && t.commands == s.commands
      && if state.Some? && s.observers[o].ieee == s.commands[c].ieee && Shows(cfg, s.commands[c], state.value)
         then t.reg.entries[id].status == Matched && id in t.deliveries && t.deliveries[id] == Sending(s.observers[o].payload)
         else t.reg.entries[id] == s.reg.entries[id] && id !in t.deliveries
  {
    Reachable(cfg, steps);
    var s := Run(cfg, steps).value;
    EntryFacts(cfg, s, c);
    AnswersIff(cfg, s, o, s.commands[c].ack.id);
  }

  lemma AnswersIff(cfg: Config, s: System, o: nat, id: nat)
    requires RegistryInv(s.reg) && Enabled(s, ObserveMatches(o))
    requires id < |s.reg.entries| && s.reg.entries[id].status == Pending && id !in s.deliveries
    ensures var t := Apply(cfg, s, ObserveMatches(o));
      var state := ParseFields(cfg.parse, s.observers[o].payload);
      && id < |t.reg.entries| && t.commands == s.commands
      && if state.Some? && s.observers[o].ieee == s.reg.entries[id].ieee && Matches(cfg.fold, s.reg.entries[id].expected, state.value)
         then t.reg.entries[id].status == Matched && id in t.deliveries && t.deliveries[id] == Sending(s.observers[o].payload)
         else t.reg.entries[id] == s.reg.entries[id] && id !in t.deliveries
  {
    var state := ParseFields(cfg.parse, s.observers[o].payload);
    if state.Some? {
      MatchMeaning(s.reg, cfg.fold, s.observers[o].ieee, state.value);
      assert Answerable(cfg.fold, s.observers[o].ieee, state.value, s.reg.entries[id])
        <==> s.observers[o].ieee == s.reg.entries[id].ieee && Matches(cfg.fold, s.reg.entries[id].expected, state.value);
    }
  }
}
