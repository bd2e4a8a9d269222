/** What holds in every run of the acknowledgement protocol. */
module AckRuns {
  import opened Common
  import opened AckMatching
  import opened AckSections
  import opened AckProtocol
  import opened AckSafety

  /** The state after a sequence of steps, if each was enabled when it was taken. */
  function Run(cfg: Config, steps: seq<Step>): Option<System> {
    if steps == [] then Some(INIT)
    else
      match Run(cfg, steps[..|steps| - 1])
      case None => None
      case Some(s) =>
        var step := steps[|steps| - 1];
        if Enabled(s, step) then Some(Apply(cfg, s, step)) else None
  }

  lemma {:induction false} Reachable(cfg: Config, steps: seq<Step>)
    requires Run(cfg, steps).Some?
    ensures SystemInv(cfg, Run(cfg, steps).value)
  {
    if steps == [] {
      InitInv(cfg);
    } else {
      var before := steps[..|steps| - 1];
      Reachable(cfg, before);
      StepKeepsInv(cfg, Run(cfg, before).value, steps[|steps| - 1]);
    }
  }

  // ---------- exactly one of five statuses, and a terminal one for ever ----------

  function WithStatus(r: Registry, status: Status): set<nat> {
    set id: nat | id < |r.entries| && r.entries[id].status == status
  }

  /**
   The ids in the pending lists and the four terminal statuses partition the registered
   entries; every pending entry has an armed timer or an outstanding expire call, and no
   key of the map holds an empty list.
   */
  lemma EntriesPartition(cfg: Config, steps: seq<Step>)
    requires Run(cfg, steps).Some?
    ensures var r := Run(cfg, steps).value.reg;
      && AllPending(r) == WithStatus(r, Pending)
      && AllPending(r) !! WithStatus(r, Matched) !! WithStatus(r, Expired) !! WithStatus(r, Cancelled) !! WithStatus(r, Dropped)
      && (forall id: nat :: id < |r.entries| <==>
            id in AllPending(r) + WithStatus(r, Matched) + WithStatus(r, Expired) + WithStatus(r, Cancelled) + WithStatus(r, Dropped))
      && (forall id | id in AllPending(r) :: id < |r.entries| && (r.entries[id].timer == Armed || r.entries[id].timer == Firing))
      && (forall k | k in r.pending :: r.pending[k] != [])
  {
    Reachable(cfg, steps);
    var r := Run(cfg, steps).value.reg;
    forall id: nat | id < |r.entries|
      ensures id in AllPending(r) <==> r.entries[id].status == Pending
      ensures id in AllPending(r) ==> r.entries[id].timer != Idle
    {
      PendingListed(r, id);
    }
    forall id | id in AllPending(r) ensures id < |r.entries| {
      var k :| k in r.pending && id in r.pending[k];
      assert ListInv(r, k);
    }
    forall k | k in r.pending ensures r.pending[k] != [] { assert ListInv(r, k); }
  }

  lemma PendingListed(r: Registry, id: nat)
    requires RegistryInv(r) && id < |r.entries|
    ensures id in AllPending(r) <==> r.entries[id].status == Pending
    ensures r.entries[id].status == Pending ==> r.entries[id].timer != Idle
  {
    assert EntryInv(r, id);
    if id in AllPending(r) {
      var k :| k in r.pending && id in r.pending[k];
      assert ListInv(r, k);
    }
  }

  lemma StepAdvances(cfg: Config, s: System, step: Step)
    requires SystemInv(cfg, s) && Enabled(s, step)
    ensures Advances(s.reg, Apply(cfg, s, step).reg)
  {
    match step
    case BeginSet(c, exposes, lastState) => BeginAdvances(cfg, s, c, exposes, lastState);
    case CancelAck(c) => CancelAdvances(s, c);
    case TimerFires(id) => FireKeepsInv(s.reg, id);
    case ExpireCall(id) => ExpireAdvances(s, id);
    case ObserveMatches(o) => ObserveAdvances(cfg, s, o);
    case Shutdown => CloseKeepsInv(s.reg);
    case _ =>
  }

  lemma BeginAdvances(cfg: Config, s: System, c: nat, exposes: seq<Feature>, lastState: Fields)
    requires RegistryInv(s.reg) && Enabled(s, BeginSet(c, exposes, lastState))
    ensures Advances(s.reg, DoBeginSet(cfg, s, c, exposes, lastState).reg)
  {
    var command := s.commands[c];
    var expected := if cfg.acks then ExpectationOf(cfg.parse, command.data, exposes, lastState) else None;
    if expected.Some? {
      RegisterKeepsInv(s.reg, command.ieee, command.target, expected.value);
    }
  }

  lemma CancelAdvances(s: System, c: nat)
    requires RegistryInv(s.reg) && Enabled(s, CancelAck(c))
    ensures Advances(s.reg, DoCancel(s, c).reg)
  {
    if s.commands[c].ack.Waits? {
      CancelKeepsInv(s.reg, s.commands[c].ack.id);
    }
  }

  lemma ExpireAdvances(s: System, id: nat)
    requires RegistryInv(s.reg) && Enabled(s, ExpireCall(id))
    ensures Advances(s.reg, DoExpire(s, id).reg)
  {
    ExpireKeepsInv(s.reg, id);
  }

  lemma ObserveAdvances(cfg: Config, s: System, o: nat)
    requires RegistryInv(s.reg) && Enabled(s, ObserveMatches(o))
    ensures Advances(s.reg, Apply(cfg, s, ObserveMatches(o)).reg)
  {
    var parsed := ParseFields(cfg.parse, s.observers[o].payload);
    if parsed.Some? {
      MatchKeepsInv(s.reg, cfg.fold, s.observers[o].ieee, parsed.value);
    }
  }

  lemma AdvancesTrans(a: Registry, b: Registry, c: Registry)
    requires Advances(a, b) && Advances(b, c)
    ensures Advances(a, c)
  {
    forall id | 0 <= id < |a.entries| ensures Keeps(a.entries[id], c.entries[id]) {
      assert Keeps(a.entries[id], b.entries[id]);
    }
  }

  lemma LastAdvances(cfg: Config, steps: seq<Step>)
    requires steps != [] && Run(cfg, steps).Some?
    ensures Advances(Run(cfg, steps[..|steps| - 1]).value.reg, Run(cfg, steps).value.reg)
  {
    var before := steps[..|steps| - 1];
    Reachable(cfg, before);
    StepAdvances(cfg, Run(cfg, before).value, steps[|steps| - 1]);
  }

  /** A terminal status, an entry's identity, a stopped timer and the closed flag are final. */
  lemma {:induction false} StatusFinal(cfg: Config, steps: seq<Step>, i: nat)
    requires i <= |steps| && Run(cfg, steps).Some?
    ensures Run(cfg, steps[..i]).Some?
    ensures Advances(Run(cfg, steps[..i]).value.reg, Run(cfg, steps).value.reg)
  {
    if i == |steps| {
      assert steps[..i] == steps;
    } else {
      var before := steps[..|steps| - 1];
      assert before[..i] == steps[..i];
      StatusFinal(cfg, before, i);
      LastAdvances(cfg, steps);
      AdvancesTrans(Run(cfg, before[..i]).value.reg, Run(cfg, before).value.reg, Run(cfg, steps).value.reg);
    }
  }

  // ---------- at most one answer ----------

  /** An answer after which none may follow: an error, or a response that went out. */
  predicate Terminal(a: Answer) {
    a.Error? || a.ok
  }

  function Terminals(answers: seq<Answer>): nat {
    if answers == [] then 0 else Terminals(answers[..|answers| - 1]) + if Terminal(answers[|answers| - 1]) then 1 else 0
  }

  /** Nothing, one terminal answer, or one failed response with or without the error that reports it. */
  predicate AnswerShape(command: Command) {
    var a := command.answers;
    || a == []
    || (|a| == 1 && (Terminal(a[0]) || Failed(a[0])))
    || (|a| == 2 && Failed(a[0]) && a[1] == Error(command.target.commandId, RespondFailed))
  }

  predicate Failed(a: Answer) {
    a.Response? && !a.ok
  }

  /** In every run every command has at most one terminal answer, and an error after a response attempt only if it failed. */
  lemma AtMostOneAnswer(cfg: Config, steps: seq<Step>, c: nat)
    requires Run(cfg, steps).Some? && c < |Run(cfg, steps).value.commands|
    ensures var command := Run(cfg, steps).value.commands[c];
      && AnswerShape(command)
      && Terminals(command.answers) <= 1
      && (command.foreign ==> command.answers == [])
      && (forall a | a in command.answers :: if a.Response? then a.target == command.target else a.commandId == command.target.commandId)
  {
    Reachable(cfg, steps);
    var s := Run(cfg, steps).value;
    assert CommandInv(cfg, s, c);
    TerminalsOf(s.commands[c]) by { ShapeHolds(cfg, s, c); }
    TargetsHold(cfg, s, c);
  }

  lemma ShapeHolds(cfg: Config, s: System, c: nat)
    requires c < |s.commands| && CommandInv(cfg, s, c)
    ensures AnswerShape(s.commands[c])
  {
  }

  lemma TargetsHold(cfg: Config, s: System, c: nat)
    requires c < |s.commands| && CommandInv(cfg, s, c)
    ensures forall a | a in s.commands[c].answers ::
              if a.Response? then a.target == s.commands[c].target else a.commandId == s.commands[c].target.commandId
  {
  }

  lemma TerminalsOf(command: Command)
    requires AnswerShape(command)
    ensures Terminals(command.answers) <= 1
    ensures Terminals(command.answers) == 0 <==> command.answers == [] || (|command.answers| == 1 && Failed(command.answers[0]))
  {
    var a := command.answers;
    if a != [] {
      assert a[..|a| - 1] == if |a| == 1 then [] else [a[0]];
      assert Terminals([a[0]]) == if Terminal(a[0]) then 1 else 0 by {
        assert [a[0]][..0] == [];
      }
    }
  }

  /** Answers are never taken back. */
  lemma {:induction false} AnswersGrow(cfg: Config, steps: seq<Step>, i: nat, c: nat)
    requires i <= |steps| && Run(cfg, steps).Some?
    ensures Run(cfg, steps[..i]).Some?
    ensures c < |Run(cfg, steps[..i]).value.commands| ==>
              && c < |Run(cfg, steps).value.commands|
              && Run(cfg, steps[..i]).value.commands[c].answers <= Run(cfg, steps).value.commands[c].answers
  {
    var n := |steps|;
    if i == n {
      assert steps[..i] == steps;
    } else {
      var before := steps[..n - 1];
      assert before[..i] == steps[..i];
      AnswersGrow(cfg, before, i, c);
      StepAppends(cfg, Run(cfg, before).value, steps[n - 1], c);
    }
  }

  lemma StepAppends(cfg: Config, s: System, step: Step, c: nat)
    requires Enabled(s, step)
    ensures var t := Apply(cfg, s, step);
      c < |s.commands| ==> c < |t.commands| && s.commands[c].answers <= t.commands[c].answers
  {
  }

  // ---------- exactly one answer, unless shutdown took it ----------

  /** The command is done and none of the registry's goroutines still works for it. */
  predicate Quiet(s: System, c: nat)
    requires c < |s.commands|
  {
    var command := s.commands[c];
    && command.pc == Finished
    && (command.ack.Waits? ==>
          var id := command.ack.id;
          id < |s.reg.entries| && s.reg.entries[id].status != Pending && id !in s.deliveries && id !in s.notices)
  }

  /** Shutdown took the answer: the entry was dropped, or the registry was already closed and the publish went out. */
  predicate Lost(s: System, c: nat)
    requires c < |s.commands|
  {
    match s.commands[c].ack
    case NoAck => false
    case Late => s.commands[c].published == Some(true)
    case Waits(id) => id < |s.reg.entries| && s.reg.entries[id].status == Dropped
  }

  /** A quiet command has exactly one terminal answer, except that it has none iff shutdown took it. */
  lemma ExactlyOneUnlessLost(cfg: Config, steps: seq<Step>, c: nat)
    requires Run(cfg, steps).Some? && c < |Run(cfg, steps).value.commands|
    requires Quiet(Run(cfg, steps).value, c) && !Run(cfg, steps).value.commands[c].foreign
    ensures var s := Run(cfg, steps).value;
      && Terminals(s.commands[c].answers) == (if Lost(s, c) then 0 else 1)
      && (Lost(s, c) ==> s.commands[c].answers == [])
  {
    Reachable(cfg, steps);
    var s := Run(cfg, steps).value;
    assert CommandInv(cfg, s, c);
    QuietAnswers(cfg, s, c);
    ShapeHolds(cfg, s, c);
    TerminalsOf(s.commands[c]);
  }

  lemma QuietAnswers(cfg: Config, s: System, c: nat)
    requires c < |s.commands| && CommandInv(cfg, s, c) && Quiet(s, c) && !s.commands[c].foreign
    ensures var a := s.commands[c].answers;
      if Lost(s, c) then a == [] else a != [] && !(|a| == 1 && Failed(a[0]))
  {
    match s.commands[c].ack
    case NoAck => assert DirectAnswer(s.commands[c]);
    case Late =>
      var published: bool := s.commands[c].published.value;
      assert s.commands[c].published == Some(published);
    case Waits(id) =>
      assert WaitsInv(cfg, s, c);
      match s.reg.entries[id].status
      case Pending => assert false;
      case Matched => assert Delivered(cfg, s.reg.entries[id], s.commands[c].answers);
      case _ =>
  }

  /** As long as the registry was not closed, nothing is lost. */
  lemma OpenLosesNothing(cfg: Config, steps: seq<Step>, c: nat)
    requires Run(cfg, steps).Some? && c < |Run(cfg, steps).value.commands|
    requires Shutdown !in steps
    ensures !Lost(Run(cfg, steps).value, c)
  {
    Reachable(cfg, steps);
    var s := Run(cfg, steps).value;
    StillWaiting(cfg, steps);
    assert CommandInv(cfg, s, c);
    if s.commands[c].ack.Waits? {
      assert OwnerInv(s, s.commands[c].ack.id);
    }
  }

  lemma {:induction false} StillWaiting(cfg: Config, steps: seq<Step>)
    requires Run(cfg, steps).Some? && Shutdown !in steps
    ensures Run(cfg, steps).value.watcher == Waiting
  {
    if steps != [] {
      StillWaiting(cfg, steps[..|steps| - 1]);
      assert steps[|steps| - 1] in steps;
    }
  }

  /** A finished command changes no more, except that the registry's goroutines may answer it. */
  lemma FinishedStays(cfg: Config, s: System, step: Step, c: nat)
    requires Enabled(s, step) && c < |s.commands| && s.commands[c].pc == Finished
    ensures var t := Apply(cfg, s, step);
      c < |t.commands| && t.commands[c] == s.commands[c].(answers := t.commands[c].answers)
  {
  }

  lemma LostStays(cfg: Config, s: System, step: Step, c: nat)
    requires SystemInv(cfg, s) && Enabled(s, step) && c < |s.commands| && s.commands[c].pc == Finished && Lost(s, c)
    ensures var t := Apply(cfg, s, step);
      c < |t.commands| && t.commands[c].pc == Finished && Lost(t, c)
  {
    FinishedStays(cfg, s, step, c);
    StepAdvances(cfg, s, step);
    if s.commands[c].ack.Waits? {
      var id := s.commands[c].ack.id;
      assert Keeps(s.reg.entries[id], Apply(cfg, s, step).reg.entries[id]);
    }
  }

  lemma LostIsSilent(cfg: Config, s: System, c: nat)
    requires c < |s.commands| && CommandInv(cfg, s, c) && s.commands[c].pc == Finished && Lost(s, c)
    ensures s.commands[c].answers == []
  {
  }

  /** A command whose answer shutdown took is never answered, however the run goes on. */
  lemma {:induction false} LostForever(cfg: Config, steps: seq<Step>, i: nat, c: nat)
    requires i <= |steps| && Run(cfg, steps).Some? && Run(cfg, steps[..i]).Some?
    requires var s := Run(cfg, steps[..i]).value; c < |s.commands| && s.commands[c].pc == Finished && Lost(s, c)
    ensures var t := Run(cfg, steps).value;
      c < |t.commands| && t.commands[c].pc == Finished && Lost(t, c) && t.commands[c].answers == []
  {
    if i == |steps| {
      assert steps[..i] == steps;
    } else {
      var before := steps[..|steps| - 1];
      assert before[..i] == steps[..i];
      LostForever(cfg, before, i, c);
      Reachable(cfg, before);
      LostStays(cfg, Run(cfg, before).value, steps[|steps| - 1], c);
    }
    Reachable(cfg, steps);
    assert CommandInv(cfg, Run(cfg, steps).value, c);
    LostIsSilent(cfg, Run(cfg, steps).value, c);
  }

  lemma RunSnoc(cfg: Config, steps: seq<Step>, step: Step)
    requires Run(cfg, steps).Some? && Enabled(Run(cfg, steps).value, step)
    ensures Run(cfg, steps + [step]) == Some(Apply(cfg, Run(cfg, steps).value, step))
  {
    assert (steps + [step])[..|steps|] == steps;
  }

  /**
   The comment on Register reads a false cancel as "already answered". In this run shutdown drops the entry
   while the publish is under way and fails: cancel is false, and nobody ever answers the command.
   */
  lemma CancelFalseUnanswered(cfg: Config) returns (steps: seq<Step>)
    requires cfg.acks && ReadsPayload(cfg)
    ensures steps != [] && steps[|steps| - 1] == CancelAck(0)
    ensures Run(cfg, steps[..|steps| - 1]).Some? && Run(cfg, steps).Some?
    ensures var s := Run(cfg, steps[..|steps| - 1]).value;
      |s.commands| == 1 && s.commands[0].ack == Waits(0) && |s.reg.entries| == 1 && !CancelSection(s.reg, 0).1
    ensures var t := Run(cfg, steps).value;
      |t.commands| == 1 && t.commands[0].published == Some(false) && t.commands[0].answers == [] && Quiet(t, 0) && Lost(t, 0)
  {
    var registered := Registering(cfg);
    Reachable(cfg, registered);
    Dropping(cfg, Run(cfg, registered).value);
    RunSnoc(cfg, registered, Shutdown);
    RunSnoc(cfg, registered + [Shutdown], Publish(0, false));
    var dropped := registered + [Shutdown] + [Publish(0, false)];
    RunSnoc(cfg, dropped, CancelAck(0));
    steps := dropped + [CancelAck(0)];
    assert steps[..|steps| - 1] == dropped;
  }

  const PAYLOAD := "{\"state\":\"ON\"}"

  /** All that the run assumes of the parser. */
  predicate ReadsPayload(cfg: Config) {
    cfg.parse(PAYLOAD) == Some(Object(map["state" := String("ON")]))
  }

  /** A command arrives and registers. */
  lemma Registering(cfg: Config) returns (steps: seq<Step>)
    requires cfg.acks && ReadsPayload(cfg)
    ensures Run(cfg, steps).Some?
    ensures var s := Run(cfg, steps).value;
      && |s.commands| == 1 && |s.reg.entries| == 1 && !s.reg.closed
      && s.reg.entries[0].status == Pending && s.commands[0].ack == Waits(0) && s.commands[0].pc == Publishing
      && s.commands[0].answers == [] && s.deliveries == map[] && s.notices == {} && s.watcher == Waiting
  {
    var arrive := Arrive(cfg.prefix + "0x1", "set", "1", PAYLOAD);
    RunSnoc(cfg, [], arrive);
    RunSnoc(cfg, [] + [arrive], BeginSet(0, [], map[]));
    FirstRegisters(cfg, Apply(cfg, INIT, arrive));
    steps := [] + [arrive] + [BeginSet(0, [], map[])];
  }

  lemma FirstRegisters(cfg: Config, s: System)
    requires cfg.acks && ReadsPayload(cfg)
    requires |s.commands| == 1 && s.commands[0].pc == SetStart && s.commands[0].data == PAYLOAD && s.reg == INIT.reg
    ensures var t := DoBeginSet(cfg, s, 0, [], map[]);
      && |t.reg.entries| == 1 && !t.reg.closed && t.reg.entries[0].status == Pending
      && |t.commands| == 1 && t.commands[0].ack == Waits(0) && t.commands[0].pc == Publishing
      && t.commands[0].answers == s.commands[0].answers
      && t.deliveries == s.deliveries && t.notices == s.notices && t.watcher == s.watcher
  {
    assert "state" in Expectation(map["state" := String("ON")], [], map[]);
  }

  /** Shutdown and a failing publish, one after the other. */
  lemma Dropping(cfg: Config, s: System)
    requires RegistryInv(s.reg) && |s.commands| == 1 && |s.reg.entries| == 1
    requires s.reg.entries[0].status == Pending && s.commands[0].ack == Waits(0) && s.commands[0].pc == Publishing && s.watcher == Waiting
    ensures var t := DoPublish(Apply(cfg, s, Shutdown), 0, false);
      && t.reg.pending == map[] && |t.reg.entries| == 1 && t.reg.entries[0].status == Dropped
      && t.commands == [s.commands[0].(pc := Cancelling, published := Some(false))]
      && t.deliveries == s.deliveries && t.notices == s.notices
  {
    CloseKeepsInv(s.reg);
  }

  // ---------- what the answers mean ----------

  /**
   A response of a waiting command carries a published state that shows every key it waits
   for; a timeout error is sent only for an expired entry, a publish error only after a
   failed publish.
   */
  lemma AnswerMeaning(cfg: Config, steps: seq<Step>, c: nat, a: Answer)
    requires Run(cfg, steps).Some? && c < |Run(cfg, steps).value.commands|
    requires Run(cfg, steps).value.commands[c].ack.Waits? && a in Run(cfg, steps).value.commands[c].answers
    ensures var s := Run(cfg, steps).value;
      var command := s.commands[c];
      && command.ack.id < |s.reg.entries|
      && var e := s.reg.entries[command.ack.id];
      match a
      case Response(ok, target, data) =>
        && target == command.target && e.status == Matched
        && ParseFields(cfg.parse, command.data).Some?
        && ParseFields(cfg.parse, data).Some?
        && var payload, state := ParseFields(cfg.parse, command.data).value, ParseFields(cfg.parse, data).value;
           forall key | key in Expectation(payload, command.exposes, command.lastState) ::
             key in state && (IsToggle(cfg.fold, payload[key]) || Agree(cfg.fold, payload[key], state[key]))
      case Error(_, Timeout) => e.status == Expired
      case Error(_, PublishFailed) => e.status == Cancelled && command.published == Some(false)
      case Error(_, reason) => e.status == Matched && reason == RespondFailed
  {
    Reachable(cfg, steps);
    var command := Run(cfg, steps).value.commands[c];
    assert CommandInv(cfg, Run(cfg, steps).value, c);
    AnswerByStatus(cfg, Run(cfg, steps).value, c, a);
    if a.Response? {
      MatchesMeaning(cfg.fold, Expectation(ParseFields(cfg.parse, command.data).value, command.exposes, command.lastState),
                     ParseFields(cfg.parse, a.data).value);
    }
  }

  lemma AnswerByStatus(cfg: Config, s: System, c: nat, a: Answer)
    requires c < |s.commands| && CommandInv(cfg, s, c) && s.commands[c].ack.Waits? && a in s.commands[c].answers
    ensures var command := s.commands[c];
      && command.ack.id < |s.reg.entries|
      && var e := s.reg.entries[command.ack.id];
      match a
      case Response(ok, target, data) =>
        && target == command.target && e.status == Matched
        && ParseFields(cfg.parse, command.data).Some? && ParseFields(cfg.parse, data).Some?
        && Matches(cfg.fold, Expectation(ParseFields(cfg.parse, command.data).value, command.exposes, command.lastState),
                   ParseFields(cfg.parse, data).value)
      case Error(_, Timeout) => e.status == Expired
      case Error(_, PublishFailed) => e.status == Cancelled && command.published == Some(false)
      case Error(_, reason) => e.status == Matched && reason == RespondFailed
  {
  }

  /** cancelAck reports false exactly for an entry that was matched, expired or dropped, and the command then says nothing. */
  lemma CancelFalse(cfg: Config, steps: seq<Step>, c: nat)
    requires Run(cfg, steps).Some? && Enabled(Run(cfg, steps).value, CancelAck(c))
    requires Run(cfg, steps).value.commands[c].ack.Waits?
    ensures var s := Run(cfg, steps).value;
      var id := s.commands[c].ack.id;
      var t := Apply(cfg, s, CancelAck(c));
      if s.reg.entries[id].status in {Matched, Expired, Dropped}
      then !CancelSection(s.reg, id).1 && t.reg == s.reg && t.commands[c] == s.commands[c].(pc := Finished)
      else CancelSection(s.reg, id).1 && t.reg.entries[id].status == Cancelled && t.commands[c].pc == Refusing(PublishFailed)
  {
    Reachable(cfg, steps);
    CancelOutcome(cfg, Run(cfg, steps).value, c);
  }

  lemma CancelOutcome(cfg: Config, s: System, c: nat)
    requires SystemInv(cfg, s) && Enabled(s, CancelAck(c)) && s.commands[c].ack.Waits?
    ensures var id := s.commands[c].ack.id;
      var t := Apply(cfg, s, CancelAck(c));
      if s.reg.entries[id].status in {Matched, Expired, Dropped}
      then !CancelSection(s.reg, id).1 && t.reg == s.reg && t.commands[c] == s.commands[c].(pc := Finished)
      else CancelSection(s.reg, id).1 && t.reg.entries[id].status == Cancelled && t.commands[c].pc == Refusing(PublishFailed)
  {
    var id := s.commands[c].ack.id;
    assert WaitsInv(cfg, s, c) by { assert CommandInv(cfg, s, c); }
    CancelKeepsInv(s.reg, id);
    CancelOthers(s.reg, id);
  }

  // ---------- shutdown accounting ----------

  predicate AddsDeliveries(s: System, t: System) {
    !(t.deliveries.Keys <= s.deliveries.Keys)
  }

  /** The registry's share of the wait group: the watcher, and the deliveries in flight. */
  lemma WaitGroupShare(cfg: Config, steps: seq<Step>)
    requires Run(cfg, steps).Some?
    ensures var s := Run(cfg, steps).value;
      && s.wg == (if s.watcher == Gone then 0 else 1) + |s.deliveries|
      && s.wg >= 0
  {
    Reachable(cfg, steps);
  }

  /** The part of the invariant that the accounting rests on. */
  ghost predicate ShareInv(s: System) {
    s.wg == Share(s) && (s.reg.closed <==> s.watcher != Waiting)
  }

  lemma NoShare(s: System)
    requires ShareInv(s) && s.wg == 0
    ensures s.deliveries == map[] && s.watcher == Gone && s.reg.closed
  {
    assert |s.deliveries| == 0;
  }

  /** What StepShare says of a step from `s` to `t`. */
  ghost predicate ShareKept(s: System, t: System, observes: bool) {
    && (t.wg > s.wg || AddsDeliveries(s, t) ==> observes && s.wg >= 1 && s.watcher == Waiting)
    && (s.wg == 0 ==> t.wg == 0 && t.deliveries == map[])
  }

  lemma ObserveShare(cfg: Config, s: System, o: nat)
    requires ShareInv(s) && Enabled(s, ObserveMatches(o))
    ensures ShareKept(s, DoObserveMatches(cfg, s, o), true)
  {
    if s.wg == 0 {
      NoShare(s);
    }
    if s.reg.closed {
      assert s.deliveries + Started(Elements([]), s.observers[o].payload) == s.deliveries;
    } else {
      assert s.watcher == Waiting && s.wg >= 1;
    }
  }

  lemma DeliveryShare(s: System, t: System)
    requires ShareInv(s) && t.deliveries.Keys <= s.deliveries.Keys && t.wg <= s.wg
    requires s.wg == 0 ==> t.wg == 0
    ensures ShareKept(s, t, false)
  {
    if s.wg == 0 {
      NoShare(s);
    }
  }

  /** The share grows only while it is at least 1, and once it is 0 it stays 0 and nothing is delivered. */
  lemma StepShare(cfg: Config, s: System, step: Step)
    requires ShareInv(s) && Enabled(s, step)
    ensures ShareKept(s, Apply(cfg, s, step), step.ObserveMatches?)
  {
    if s.wg == 0 {
      NoShare(s);
    }
    if step.ObserveMatches? {
      ObserveShare(cfg, s, step.o);
    } else {
      DeliveryShare(s, Apply(cfg, s, step));
    }
  }

  lemma ZeroShareNow(cfg: Config, steps: seq<Step>)
    requires Run(cfg, steps).Some? && Run(cfg, steps).value.wg == 0
    ensures Run(cfg, steps).value.deliveries == map[]
  {
    Reachable(cfg, steps);
    assert |Run(cfg, steps).value.deliveries| == 0;
  }

  lemma ZeroShareNext(cfg: Config, steps: seq<Step>)
    requires steps != [] && Run(cfg, steps).Some? && Run(cfg, steps[..|steps| - 1]).value.wg == 0
    ensures Run(cfg, steps).value.wg == 0
  {
    Reachable(cfg, steps[..|steps| - 1]);
    StepShare(cfg, Run(cfg, steps[..|steps| - 1]).value, steps[|steps| - 1]);
  }

  lemma {:induction false} ShareStaysZero(cfg: Config, steps: seq<Step>, i: nat)
    requires i <= |steps| && Run(cfg, steps).Some?
    requires Run(cfg, steps[..i]).Some? && Run(cfg, steps[..i]).value.wg == 0
    ensures Run(cfg, steps).value.wg == 0 && Run(cfg, steps).value.deliveries == map[]
  {
    if i == |steps| {
      assert steps[..i] == steps;
    } else {
      var before := steps[..|steps| - 1];
      assert before[..i] == steps[..i];
      ShareStaysZero(cfg, before, i);
      ZeroShareNext(cfg, steps);
    }
    ZeroShareNow(cfg, steps);
  }

  // ---------- echoes ----------

  /** The command waits, and `payload` is a state that shows everything it set. */
  ghost predicate Echoes(cfg: Config, s: System, c: nat, payload: string) {
    && c < |s.commands| && s.commands[c].ack.Waits?
    && var id := s.commands[c].ack.id;
    && id < |s.reg.entries| && s.reg.entries[id].status == Pending
    && ParseFields(cfg.parse, payload).Some? && ParseFields(cfg.parse, s.commands[c].data).Some?
    && Extends(ParseFields(cfg.parse, payload).value, ParseFields(cfg.parse, s.commands[c].data).value)
  }

  /**
   An Observe call that starts while a command waits is not turned away, and when its match
   section finds the entry still pending, an echo of the payload answers it.
   */
  lemma EchoAnswers(cfg: Config, steps: seq<Step>, c: nat, payload: string, o: nat)
    requires Run(cfg, steps).Some? && Echoes(cfg, Run(cfg, steps).value, c, payload)
    ensures HasPending(Run(cfg, steps).value.reg, Run(cfg, steps).value.commands[c].ieee)
    ensures var s := Run(cfg, steps).value;
      o < |s.observers| && s.observers[o] == Observer(s.commands[c].ieee, payload, false) ==>
        var t := Apply(cfg, s, ObserveMatches(o));
        var id := s.commands[c].ack.id;
        && id < |t.reg.entries| && t.reg.entries[id].status == Matched
        && id in t.deliveries && t.deliveries[id] == Sending(payload)
  {
    Reachable(cfg, steps);
    var s := Run(cfg, steps).value;
    EchoListed(cfg, s, c);
    EchoCollected(cfg, s, c, payload);
  }

  lemma EchoListed(cfg: Config, s: System, c: nat)
    requires SystemInv(cfg, s) && c < |s.commands| && s.commands[c].ack.Waits?
    requires s.commands[c].ack.id < |s.reg.entries| && s.reg.entries[s.commands[c].ack.id].status == Pending
    ensures HasPending(s.reg, s.commands[c].ieee)
  {
    assert CommandInv(cfg, s, c) && EntryInv(s.reg, s.commands[c].ack.id);
  }

  lemma EchoCollected(cfg: Config, s: System, c: nat, payload: string)
    requires SystemInv(cfg, s) && Echoes(cfg, s, c, payload)
    ensures var id := s.commands[c].ack.id;
      var (reg, matched) := MatchSection(s.reg, cfg.fold, s.commands[c].ieee, ParseFields(cfg.parse, payload).value);
      id in matched && id < |reg.entries| && reg.entries[id].status == Matched
  {
    var id := s.commands[c].ack.id;
    var state := ParseFields(cfg.parse, payload).value;
    assert WaitsInv(cfg, s, c) by { assert CommandInv(cfg, s, c); }
    EchoSatisfies(cfg.fold, ParseFields(cfg.parse, s.commands[c].data).value, s.commands[c].exposes, s.commands[c].lastState, state);
    MatchMeaning(s.reg, cfg.fold, s.commands[c].ieee, state);
    assert Answerable(cfg.fold, s.commands[c].ieee, state, s.reg.entries[id]);
  }

  // ---------- nothing is stuck ----------

  function PcRank(pc: Pc): nat {
    match pc
    case SetStart => 5
    case Publishing => 4
    case GetStart => 4
    case Cancelling => 3
    case Responding(_) => 3
    case Refusing(_) => 1
    case Finished => 0
  }

  function EntryRank(s: System, id: nat): nat
    requires id < |s.reg.entries|
  {
    match s.reg.entries[id].status
    case Pending => if s.reg.entries[id].timer == Armed then 5 else 4
    case Matched =>
      if id !in s.deliveries then 0 else if s.deliveries[id].Sending? then 3 else if s.deliveries[id].Failing? then 2 else 1
    case Expired => if id in s.notices then 1 else 0
    case _ => 0
  }

  /** How much is left to do for a command, at most. */
  function Rank(s: System, c: nat): nat
    requires c < |s.commands|
  {
    var ack := s.commands[c].ack;
    10 * PcRank(s.commands[c].pc) + if ack.Waits? && ack.id < |s.reg.entries| then EntryRank(s, ack.id) else 0
  }

  /** A step that works on command `c`: its own next one, or one of its timer's or delivery's. */
  function NextStep(s: System, c: nat): Step
    requires c < |s.commands|
  {
    match s.commands[c].pc
    case SetStart => BeginSet(c, [], map[])
    case GetStart => ReadState(c, None)
    case Publishing => Publish(c, true)
    case Cancelling => CancelAck(c)
    case Refusing(_) => Refuse(c)
    case Responding(_) => Respond(c, true)
    case Finished =>
      var id := if s.commands[c].ack.Waits? then s.commands[c].ack.id else 0;
      if id in s.notices then TimeoutError(id)
      else if id in s.deliveries then
        (match s.deliveries[id]
         case Sending(_) => DeliveryResponds(id, true)
         case Failing(_) => DeliveryFails(id)
         case Returning => DeliveryEnds(id))
      else if id < |s.reg.entries| && s.reg.entries[id].timer == Armed then TimerFires(id)
      else ExpireCall(id)
  }

  /** What the next step of a command depends on. */
  ghost predicate Ready(s: System, c: nat) {
    && c < |s.commands| && AckKnown(s, c)
    && (s.commands[c].ack.Waits? ==>
          var id := s.commands[c].ack.id;
          && Owned(s, id) && s.owner[id] == c
          && (id in s.deliveries ==> s.reg.entries[id].status == Matched)
          && (id in s.notices ==> s.reg.entries[id].status == Expired)
          && (s.reg.entries[id].status == Pending ==> s.reg.entries[id].timer != Idle))
  }

  lemma IsReady(cfg: Config, s: System, c: nat)
    requires SystemInv(cfg, s) && c < |s.commands|
    ensures Ready(s, c)
  {
    assert CommandInv(cfg, s, c);
    if s.commands[c].ack.Waits? {
      var id := s.commands[c].ack.id;
      assert WaitsInv(cfg, s, c);
      assert OwnerInv(s, id);
      PendingListed(s.reg, id);
    }
  }

  ghost predicate Progresses(cfg: Config, s: System, c: nat)
    requires c < |s.commands|
  {
    var step := NextStep(s, c);
    Enabled(s, step) && c < |Apply(cfg, s, step).commands| && Rank(Apply(cfg, s, step), c) < Rank(s, c)
  }

  lemma ProgressBegin(cfg: Config, s: System, c: nat)
    requires Ready(s, c) && s.commands[c].pc == SetStart
    ensures Progresses(cfg, s, c)
  {
  }

  lemma ProgressCancel(cfg: Config, s: System, c: nat)
    requires RegistryInv(s.reg) && Ready(s, c) && s.commands[c].pc == Cancelling
    ensures Progresses(cfg, s, c)
  {
    if s.commands[c].ack.Waits? {
      CancelOthers(s.reg, s.commands[c].ack.id);
    }
  }

  lemma ProgressCommand(cfg: Config, s: System, c: nat)
    requires RegistryInv(s.reg) && Ready(s, c) && s.commands[c].pc != Finished
    ensures Progresses(cfg, s, c)
  {
    match s.commands[c].pc
    case SetStart => ProgressBegin(cfg, s, c);
    case Cancelling => ProgressCancel(cfg, s, c);
    case _ =>
  }

  /** A goroutine of the registry sends its answer, or ends. */
  lemma ProgressAnswer(cfg: Config, s: System, c: nat)
    requires Ready(s, c) && s.commands[c].pc == Finished && s.commands[c].ack.Waits?
    requires s.commands[c].ack.id in s.notices || s.commands[c].ack.id in s.deliveries
    ensures Progresses(cfg, s, c)
  {
  }

  /** The timer of a pending entry fires, or its expire call gets the mutex. */
  lemma ProgressTimer(cfg: Config, s: System, c: nat)
    requires RegistryInv(s.reg) && Ready(s, c) && s.commands[c].pc == Finished && s.commands[c].ack.Waits?
    requires s.reg.entries[s.commands[c].ack.id].status == Pending
    ensures Progresses(cfg, s, c)
  {
    ExpireOthers(s.reg, s.commands[c].ack.id);
  }

  function RunFrom(cfg: Config, s: System, steps: seq<Step>): Option<System>
    decreases |steps|
  {
    if steps == [] then Some(s)
    else if Enabled(s, steps[0]) then RunFrom(cfg, Apply(cfg, s, steps[0]), steps[1..])
    else None
  }

  /** A step that brings a command closer to quiet. */
  lemma Closer(cfg: Config, s: System, c: nat) returns (step: Step, t: System)
    requires SystemInv(cfg, s) && c < |s.commands| && !Quiet(s, c)
    ensures Enabled(s, step) && t == Apply(cfg, s, step) && SystemInv(cfg, t)
    ensures c < |t.commands| && Rank(t, c) < Rank(s, c)
  {
    IsReady(cfg, s, c);
    if s.commands[c].pc != Finished {
      ProgressCommand(cfg, s, c);
    } else if s.reg.entries[s.commands[c].ack.id].status == Pending {
      ProgressTimer(cfg, s, c);
    } else {
      ProgressAnswer(cfg, s, c);
    }
    step := NextStep(s, c);
    t := Apply(cfg, s, step);
    StepKeepsInv(cfg, s, step);
  }

  /** From every reachable state the remaining steps of a command can be taken, and it becomes quiet. */
  lemma {:induction false} CanFinish(cfg: Config, s: System, c: nat) returns (more: seq<Step>)
    requires SystemInv(cfg, s) && c < |s.commands|
    ensures RunFrom(cfg, s, more).Some?
    ensures c < |RunFrom(cfg, s, more).value.commands| && Quiet(RunFrom(cfg, s, more).value, c)
    decreases Rank(s, c)
  {
    if Quiet(s, c) {
      more := [];
    } else {
      var step, t := Closer(cfg, s, c);
      var rest := CanFinish(cfg, t, c);
      more := [step] + rest;
      assert more[1..] == rest;
    }
  }
}
