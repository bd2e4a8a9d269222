/**
 The acknowledgement protocol as a step system: every command of the command loop, every
 Observe call, every timer, every delivery goroutine and the shutdown watcher, interleaved
 at the registry's mutex (pkg/connector/ack.go, pkg/connector/command.go). Environment
 choices (publish outcome, respond outcome, timing, states, shutdown) are step arguments.
 Any number of commands may be in progress at once, which includes the code's one at a time.
 */
module AckProtocol {
  import opened Common
  import opened AckMatching
  import opened AckSections

  datatype Config = Config(prefix: string, acks: bool, fold: string -> string, parse: string -> Option<Json>)

  datatype Reason = UnknownService | ReadFailed | PublishFailed | RespondFailed | Timeout

  /** What goes out for a command: a response attempt and its outcome, or a command error. */
  datatype Answer =
    | Response(ok: bool, target: Target, data: string)
    | Error(commandId: string, reason: Reason)

  /** The variable cancelAck: nil, the closure of a closed registry, or the closure of an entry. */
  datatype Ack = NoAck | Late | Waits(id: nat)

  datatype Pc = SetStart | GetStart | Publishing | Cancelling | Refusing(reason: Reason) | Responding(data: string) | Finished

  datatype Command = Command(
    ieee: string, target: Target, data: string, foreign: bool,
    exposes: seq<Feature>, lastState: Fields,
    pc: Pc, ack: Ack, published: Option<bool>, read: Option<Option<string>>, answers: seq<Answer>)

  /** A goroutine that answers a matched entry; it leaves the map when it ends. */
  datatype Delivery = Sending(data: string) | Failing(data: string) | Returning

  /** An Observe call between its two critical sections. */
  datatype Observer = Observer(ieee: string, payload: string, done: bool)

  datatype Watcher = Waiting | Closed | Gone

  datatype System = System(
    reg: Registry,
    owner: seq<nat>,               // the command of every entry
    commands: seq<Command>,
    observers: seq<Observer>,
    deliveries: map<nat, Delivery>,
    notices: set<nat>,             // expired entries whose timeout error is still to be sent
    watcher: Watcher,
    wg: int)                       // the registry's share of the wait group

  datatype Step =
    | Arrive(deviceId: string, serviceId: string, commandId: string, data: string)
    | BeginSet(c: nat, exposes: seq<Feature>, lastState: Fields)
    | ReadState(c: nat, value: Option<string>)
    | Publish(c: nat, ok: bool)
    | CancelAck(c: nat)
    | Refuse(c: nat)
    | Respond(c: nat, ok: bool)
    | TimerFires(id: nat)
    | ExpireCall(id: nat)
    | TimeoutError(id: nat)
    | ObserveBegins(ieee: string, payload: string)
    | ObserveMatches(o: nat)
    | DeliveryResponds(id: nat, ok: bool)
    | DeliveryFails(id: nat)
    | DeliveryEnds(id: nat)
    | Shutdown
    | WatcherEnds

  const INIT := System(EMPTY, [], [], [], map[], {}, Waiting, 1)

  // ---------- one step ----------

  predicate Enabled(s: System, step: Step) {
    match step
    case Arrive(_, _, _, _) => true
    case BeginSet(c, _, _) => c < |s.commands| && s.commands[c].pc == SetStart
    case ReadState(c, _) => c < |s.commands| && s.commands[c].pc == GetStart
    case Publish(c, _) => c < |s.commands| && s.commands[c].pc == Publishing
    case CancelAck(c) => c < |s.commands| && s.commands[c].pc == Cancelling && AckKnown(s, c)
    case Refuse(c) => c < |s.commands| && s.commands[c].pc.Refusing?
    case Respond(c, _) => c < |s.commands| && s.commands[c].pc.Responding?
    case TimerFires(id) => id < |s.reg.entries| && s.reg.entries[id].timer == Armed
    case ExpireCall(id) => id < |s.reg.entries| && s.reg.entries[id].timer == Firing
    case TimeoutError(id) => Owned(s, id) && id in s.notices
    case ObserveBegins(_, _) => true
    case ObserveMatches(o) => o < |s.observers| && !s.observers[o].done
    case DeliveryResponds(id, _) => Owned(s, id) && id in s.deliveries && s.deliveries[id].Sending?
    case DeliveryFails(id) => Owned(s, id) && id in s.deliveries && s.deliveries[id].Failing?
    case DeliveryEnds(id) => id in s.deliveries && s.deliveries[id].Returning?
    case Shutdown => s.watcher == Waiting
    case WatcherEnds => s.watcher == Closed
  }

  predicate AckKnown(s: System, c: nat)
    requires c < |s.commands|
  {
    s.commands[c].ack.Waits? ==> s.commands[c].ack.id < |s.reg.entries|
  }

  predicate Owned(s: System, id: nat) {
    id < |s.owner| && id < |s.reg.entries| && s.owner[id] < |s.commands|
  }

  /** handleCommand up to the service switch. */
  function NewCommand(cfg: Config, deviceId: string, serviceId: string, commandId: string, data: string): Command {
    var target := Target(deviceId, serviceId, commandId);
    var foreign := !(cfg.prefix <= deviceId);
    var ieee := if foreign then "" else deviceId[|cfg.prefix|..];
    var pc := if foreign then Finished
              else if serviceId == "set" then SetStart
              else if serviceId == "get" then GetStart
              else Refusing(UnknownService);
    Command(ieee, target, data, foreign, [], map[], pc, NoAck, None, None, [])
  }

  function SetCommand(s: System, c: nat, command: Command): System
    requires c < |s.commands|
  {
    s.(commands := s.commands[c := command])
  }

  /** An answer of entry `id`'s command, sent by one of the registry's goroutines. */
  function Say(s: System, id: nat, answer: Answer): System
    requires Owned(s, id)
  {
    var c := s.owner[id];
    SetCommand(s, c, s.commands[c].(answers := s.commands[c].answers + [answer]))
  }

  /** The first part of handleSet: derive the expectation and register before publishing. */
  function DoBeginSet(cfg: Config, s: System, c: nat, exposes: seq<Feature>, lastState: Fields): System
    requires c < |s.commands|
  {
    var command := s.commands[c].(pc := Publishing, exposes := exposes, lastState := lastState);
    var expected := if cfg.acks then ExpectationOf(cfg.parse, command.data, exposes, lastState) else None;
    if expected.None? then SetCommand(s, c, command)
    else
      match RegisterSection(s.reg, command.ieee, command.target, expected.value)
      case (_, None) => SetCommand(s, c, command.(ack := Late))
      case (reg, Some(id)) =>
        SetCommand(s.(reg := reg, owner := s.owner + [c]), c, command.(ack := Waits(id)))
  }

  function DoPublish(s: System, c: nat, ok: bool): System
    requires c < |s.commands|
  {
    var command := s.commands[c].(published := Some(ok));
    SetCommand(s, c,
      if ok then command.(pc := if command.ack.NoAck? then Responding("") else Finished)
      else command.(pc := if command.ack.NoAck? then Refusing(PublishFailed) else Cancelling))
  }

  /** cancelAck() after a failed publish: no second answer if the entry is gone. */
  function DoCancel(s: System, c: nat): System
    requires c < |s.commands| && AckKnown(s, c)
  {
    var command := s.commands[c];
    if command.ack.Waits? then
      var (reg, removed) := CancelSection(s.reg, command.ack.id);
      SetCommand(s.(reg := reg), c, command.(pc := if removed then Refusing(PublishFailed) else Finished))
    else SetCommand(s, c, command.(pc := Refusing(PublishFailed)))
  }

  function DoRefuse(s: System, c: nat): System
    requires c < |s.commands| && s.commands[c].pc.Refusing?
  {
    var command := s.commands[c];
    SetCommand(s, c, command.(pc := Finished, answers := command.answers + [Error(command.target.commandId, command.pc.reason)]))
  }

  function DoRespond(s: System, c: nat, ok: bool): System
    requires c < |s.commands| && s.commands[c].pc.Responding?
  {
    var command := s.commands[c];
    SetCommand(s, c, command.(pc := if ok then Finished else Refusing(RespondFailed),
                              answers := command.answers + [Response(ok, command.target, command.pc.data)]))
  }

  function DoExpire(s: System, id: nat): System
    requires id < |s.reg.entries|
  {
    var (reg, removed) := ExpireSection(s.reg, id);
    s.(reg := reg, notices := if removed then s.notices + {id} else s.notices)
  }

  function Started(ids: set<nat>, payload: string): map<nat, Delivery> {
    map id | id in ids :: Sending(payload)
  }

  /** Observe after the parse: the match section, wg.Add under the lock, and the delivery goroutines. */
  function DoObserveMatches(cfg: Config, s: System, o: nat): System
    requires o < |s.observers|
  {
    var observer := s.observers[o];
    var next := s.(observers := s.observers[o := observer.(done := true)]);
    match ParseFields(cfg.parse, observer.payload)
    case None => next
    case Some(state) =>
      var (reg, matched) := MatchSection(s.reg, cfg.fold, observer.ieee, state);
      next.(reg := reg, deliveries := s.deliveries + Started(Elements(matched), observer.payload), wg := s.wg + |matched|)
  }

  function DoDeliver(s: System, id: nat, ok: bool): System
    requires Owned(s, id) && id in s.deliveries && s.deliveries[id].Sending?
  {
    var data := s.deliveries[id].data;
    Say(s.(deliveries := s.deliveries[id := if ok then Returning else Failing(data)]), id,
        Response(ok, s.reg.entries[id].target, data))
  }

  function Apply(cfg: Config, s: System, step: Step): System
    requires Enabled(s, step)
  {
    match step
    case Arrive(deviceId, serviceId, commandId, data) =>
      s.(commands := s.commands + [NewCommand(cfg, deviceId, serviceId, commandId, data)])
    case BeginSet(c, exposes, lastState) => DoBeginSet(cfg, s, c, exposes, lastState)
    case ReadState(c, value) =>
      SetCommand(s, c, s.commands[c].(pc := if value.Some? then Responding(value.value) else Refusing(ReadFailed), read := Some(value)))
    case Publish(c, ok) => DoPublish(s, c, ok)
    case CancelAck(c) => DoCancel(s, c)
    case Refuse(c) => DoRefuse(s, c)
    case Respond(c, ok) => DoRespond(s, c, ok)
    case TimerFires(id) => s.(reg := FireTimer(s.reg, id))
    case ExpireCall(id) => DoExpire(s, id)
    case TimeoutError(id) =>
      Say(s.(notices := s.notices - {id}), id, Error(s.reg.entries[id].target.commandId, Timeout))
    case ObserveBegins(ieee, payload) =>
      if HasPending(s.reg, ieee) then s.(observers := s.observers + [Observer(ieee, payload, false)]) else s
    case ObserveMatches(o) => DoObserveMatches(cfg, s, o)
    case DeliveryResponds(id, ok) => DoDeliver(s, id, ok)
    case DeliveryFails(id) =>
      Say(s.(deliveries := s.deliveries[id := Returning]), id, Error(s.reg.entries[id].target.commandId, RespondFailed))
    case DeliveryEnds(id) => s.(deliveries := s.deliveries - {id}, wg := s.wg - 1)
    case Shutdown => s.(reg := CloseSection(s.reg), watcher := Closed)
    case WatcherEnds => s.(watcher := Gone, wg := s.wg - 1)
  }
}
