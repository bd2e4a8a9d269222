/**
 Safety of the acknowledgement protocol over whole runs: what every step keeps, and what
 follows for the answers of a command and for the shutdown accounting.
 */
module AckSafety {
  import opened Common
  import opened AckMatching
  import opened AckSections
  import opened AckProtocol

  // ---------- the invariant ----------

  /** A published state that satisfies what the entry waits for. */
  predicate Confirms(cfg: Config, expected: Fields, data: string) {
    match ParseFields(cfg.parse, data)
    case None => false
    case Some(state) => Matches(cfg.fold, expected, state)
  }

  predicate BeforeAnswer(pc: Pc) {
    pc == Publishing || pc == Cancelling || pc == Finished
  }

  /** The answers of a completed delivery of `entry`. */
  predicate Delivered(cfg: Config, entry: Entry, answers: seq<Answer>) {
    && |answers| > 0 && answers[0].Response? && answers[0].target == entry.target
    && Confirms(cfg, entry.expected, answers[0].data)
    && answers == if answers[0].ok then [answers[0]] else [answers[0], Error(entry.target.commandId, RespondFailed)]
  }

  predicate DeliveryAnswers(cfg: Config, entry: Entry, delivery: Delivery, answers: seq<Answer>) {
    match delivery
    case Sending(data) => answers == [] && Confirms(cfg, entry.expected, data)
    case Failing(data) => answers == [Response(false, entry.target, data)] && Confirms(cfg, entry.expected, data)
    case Returning => Delivered(cfg, entry, answers)
  }

  /** A command the registry never heard of. */
  predicate DirectInv(command: Command) {
    var error := (reason: Reason) => Error(command.target.commandId, reason);
    match command.pc
    case Finished =>
      if command.foreign then command.answers == []
      else DirectAnswer(command)
    case Refusing(RespondFailed) =>
      |command.answers| == 1 && command.answers[0].Response? && !command.answers[0].ok && command.answers[0].target == command.target
    case Refusing(Timeout) => false
    case Cancelling => false
    case _ => command.answers == []
  }

  predicate DirectAnswer(command: Command) {
    var a := command.answers;
    && |a| > 0
    && (a[0].Response? ==> a[0].target == command.target)
    && (a[0].Response? ==> a == if a[0].ok then [a[0]] else [a[0], Error(command.target.commandId, RespondFailed)])
    && (a[0].Error? ==> a == [Error(command.target.commandId, a[0].reason)] && a[0].reason != RespondFailed && a[0].reason != Timeout)
  }

  /** A command that came to a closed registry: answered only if the publish fails. */
  predicate LateInv(command: Command) {
    && (command.pc == Refusing(PublishFailed) ==> command.published == Some(false))
    && (command.pc == Finished ==> command.published.Some?)
    && (BeforeAnswer(command.pc) || command.pc == Refusing(PublishFailed))
    && command.answers == if command.pc == Finished && command.published == Some(false)
                          then [Error(command.target.commandId, PublishFailed)] else []
  }

  /** A command with an entry: the entry's status decides what was said. */
  predicate WaitsInv(cfg: Config, s: System, c: nat)
    requires c < |s.commands| && s.commands[c].ack.Waits?
  {
    var command := s.commands[c];
    var id := command.ack.id;
    && id < |s.reg.entries| && id < |s.owner| && s.owner[id] == c
    && var e := s.reg.entries[id];
    && e.ieee == command.ieee && e.target == command.target
    && ExpectationOf(cfg.parse, command.data, command.exposes, command.lastState) == Some(e.expected)
    && match e.status
       case Pending => BeforeAnswer(command.pc) && command.answers == []
       case Matched =>
         && BeforeAnswer(command.pc)
         && if id in s.deliveries then DeliveryAnswers(cfg, e, s.deliveries[id], command.answers)
            else Delivered(cfg, e, command.answers)
       case Expired =>
         && BeforeAnswer(command.pc)
         && command.answers == if id in s.notices then [] else [Error(command.target.commandId, Timeout)]
       case Cancelled =>
         && command.published == Some(false)
         && (command.pc == Refusing(PublishFailed) || command.pc == Finished)
         && command.answers == if command.pc == Finished then [Error(command.target.commandId, PublishFailed)] else []
       case Dropped => BeforeAnswer(command.pc) && command.answers == []
  }

  predicate CommandInv(cfg: Config, s: System, c: nat)
    requires c < |s.commands|
  {
    var command := s.commands[c];
    && (command.foreign ==> command.pc == Finished && command.ack == NoAck)
    && (command.pc == Cancelling ==> command.published == Some(false))
    && (command.pc == SetStart || command.pc == Publishing ==> command.published == None)
    && (command.pc == SetStart || command.pc == GetStart ==> command.ack == NoAck)
    && match command.ack
       case NoAck => DirectInv(command)
       case Late => s.reg.closed && LateInv(command)
       case Waits(_) => WaitsInv(cfg, s, c)
  }

  predicate OwnerInv(s: System, id: nat)
    requires id < |s.reg.entries|
  {
    && Owned(s, id)
    && s.commands[s.owner[id]].ack == Waits(id)
    && (id in s.deliveries ==> s.reg.entries[id].status == Matched)
    && (id in s.notices ==> s.reg.entries[id].status == Expired)
    && (s.reg.entries[id].status == Dropped ==> s.reg.closed)
  }

  function Share(s: System): int {
    (if s.watcher == Gone then 0 else 1) + |s.deliveries|
  }

  ghost predicate SystemInv(cfg: Config, s: System) {
    RegistryInv(s.reg) && Bookkeeping(cfg, s)
  }

  ghost predicate CommandsInv(cfg: Config, s: System) {
    forall c | 0 <= c < |s.commands| :: CommandInv(cfg, s, c)
  }

  ghost predicate OwnersInv(s: System) {
    && (forall id | 0 <= id < |s.reg.entries| :: OwnerInv(s, id))
    && (forall id | id in s.deliveries || id in s.notices :: id < |s.reg.entries|)
  }

  ghost predicate Bookkeeping(cfg: Config, s: System) {
    && |s.owner| == |s.reg.entries|
    && CommandsInv(cfg, s)
    && OwnersInv(s)
    && (s.reg.closed <==> s.watcher != Waiting)
    && s.wg == Share(s)
  }

  lemma InitInv(cfg: Config)
    ensures SystemInv(cfg, INIT)
  {
  }

  /** The parts of the state that a command's invariant depends on. */
  ghost predicate SameView(s: System, t: System, c: nat)
    requires c < |s.commands| && c < |t.commands|
  {
    && t.commands[c] == s.commands[c]
    && (s.reg.closed ==> t.reg.closed)
    && (s.commands[c].ack.Waits? ==> SameEntry(s, t, s.commands[c].ack.id))
  }

  ghost predicate SameEntry(s: System, t: System, id: nat) {
    && id < |s.reg.entries| <= |t.reg.entries|
    && t.reg.entries[id].(timer := s.reg.entries[id].timer) == s.reg.entries[id]
    && id < |s.owner| <= |t.owner| && t.owner[id] == s.owner[id]
    && (id in s.deliveries <==> id in t.deliveries)
    && (id in s.deliveries ==> t.deliveries[id] == s.deliveries[id])
    && (id in s.notices <==> id in t.notices)
  }

  lemma SameViewInv(cfg: Config, s: System, t: System, c: nat)
    requires c < |s.commands| && c < |t.commands| && SameView(s, t, c) && CommandInv(cfg, s, c)
    ensures CommandInv(cfg, t, c)
  {
  }

  // ---------- every step keeps the invariant ----------

  lemma ArriveKeeps(cfg: Config, s: System, deviceId: string, serviceId: string, commandId: string, data: string)
    requires SystemInv(cfg, s)
    ensures SystemInv(cfg, Apply(cfg, s, Arrive(deviceId, serviceId, commandId, data)))
  {
    var t := Apply(cfg, s, Arrive(deviceId, serviceId, commandId, data));
    forall c | 0 <= c < |t.commands| ensures CommandInv(cfg, t, c) {
      if c < |s.commands| {
        assert CommandInv(cfg, s, c);
        SameViewInv(cfg, s, t, c);
      }
    }
    forall id | 0 <= id < |t.reg.entries| ensures OwnerInv(t, id) { assert OwnerInv(s, id); }
  }

  lemma BeginSetKeeps(cfg: Config, s: System, c: nat, exposes: seq<Feature>, lastState: Fields)
    requires SystemInv(cfg, s) && Enabled(s, BeginSet(c, exposes, lastState))
    ensures SystemInv(cfg, Apply(cfg, s, BeginSet(c, exposes, lastState)))
  {
    var t := Apply(cfg, s, BeginSet(c, exposes, lastState));
    var command := s.commands[c];
    assert CommandInv(cfg, s, c);
    var expected := if cfg.acks then ExpectationOf(cfg.parse, command.data, exposes, lastState) else None;
    if expected.None? || s.reg.closed {
      CommandStepKeeps(cfg, s, t, c);
    } else {
      RegisterKeepsInv(s.reg, command.ieee, command.target, expected.value);
      RegisteredKeeps(cfg, s, c, exposes, lastState, expected.value, t.reg, t);
    }
  }

  lemma RegisteredKeeps(cfg: Config, s: System, c: nat, exposes: seq<Feature>, lastState: Fields, expected: Fields, reg: Registry, t: System)
    requires Bookkeeping(cfg, s) && c < |s.commands| && s.commands[c].pc == SetStart
    requires ExpectationOf(cfg.parse, s.commands[c].data, exposes, lastState) == Some(expected)
    requires !reg.closed && !s.reg.closed
    requires reg.entries == s.reg.entries + [Entry(s.commands[c].ieee, s.commands[c].target, expected, Pending, Armed)]
    requires t == s.(reg := reg, owner := s.owner + [c],
                     commands := s.commands[c := s.commands[c].(pc := Publishing, exposes := exposes, lastState := lastState,
                                                               ack := Waits(|s.reg.entries|))])
    ensures Bookkeeping(cfg, t)
  {
    forall id | 0 <= id < |t.reg.entries| ensures OwnerInv(t, id) {
      if id < |s.reg.entries| {
        assert OwnerInv(s, id);
        assert CommandInv(cfg, s, c);
      }
    }
    forall d | 0 <= d < |t.commands| ensures CommandInv(cfg, t, d) {
      assert CommandInv(cfg, s, d);
      if d != c { SameViewInv(cfg, s, t, d); }
    }
  }

  /** Steps that change one command and nothing else. */
  lemma CommandStepKeeps(cfg: Config, s: System, t: System, c: nat)
    requires Bookkeeping(cfg, s) && c < |s.commands|
    requires c < |t.commands| && t == SetCommand(s, c, t.commands[c])
    requires t.commands[c].ack == s.commands[c].ack || (s.commands[c].ack.NoAck? && t.commands[c].ack.Late?)
    requires CommandInv(cfg, t, c)
    ensures Bookkeeping(cfg, t)
  {
    forall d | 0 <= d < |t.commands| ensures CommandInv(cfg, t, d) {
      assert CommandInv(cfg, s, d);
      if d != c { SameViewInv(cfg, s, t, d); }
    }
    forall id | 0 <= id < |t.reg.entries| ensures OwnerInv(t, id) { assert OwnerInv(s, id); }
  }

  lemma ReadStateKeeps(cfg: Config, s: System, c: nat, value: Option<string>)
    requires SystemInv(cfg, s) && Enabled(s, ReadState(c, value))
    ensures SystemInv(cfg, Apply(cfg, s, ReadState(c, value)))
  {
    assert CommandInv(cfg, s, c);
    CommandStepKeeps(cfg, s, Apply(cfg, s, ReadState(c, value)), c);
  }

  lemma PublishKeeps(cfg: Config, s: System, c: nat, ok: bool)
    requires SystemInv(cfg, s) && Enabled(s, Publish(c, ok))
    ensures SystemInv(cfg, Apply(cfg, s, Publish(c, ok)))
  {
    assert CommandInv(cfg, s, c);
    CommandStepKeeps(cfg, s, Apply(cfg, s, Publish(c, ok)), c);
  }

  lemma RefuseKeeps(cfg: Config, s: System, c: nat)
    requires SystemInv(cfg, s) && Enabled(s, Refuse(c))
    ensures SystemInv(cfg, Apply(cfg, s, Refuse(c)))
  {
    assert CommandInv(cfg, s, c);
    CommandStepKeeps(cfg, s, Apply(cfg, s, Refuse(c)), c);
  }

  lemma RespondKeeps(cfg: Config, s: System, c: nat, ok: bool)
    requires SystemInv(cfg, s) && Enabled(s, Respond(c, ok))
    ensures SystemInv(cfg, Apply(cfg, s, Respond(c, ok)))
  {
    assert CommandInv(cfg, s, c);
    CommandStepKeeps(cfg, s, Apply(cfg, s, Respond(c, ok)), c);
  }

  lemma CancelAckKeeps(cfg: Config, s: System, c: nat)
    requires SystemInv(cfg, s) && Enabled(s, CancelAck(c))
    ensures SystemInv(cfg, Apply(cfg, s, CancelAck(c)))
  {
    var t := Apply(cfg, s, CancelAck(c));
    assert CommandInv(cfg, s, c);
    if s.commands[c].ack.Waits? {
      var id := s.commands[c].ack.id;
      CancelKeepsInv(s.reg, id);
      CancelOthers(s.reg, id);
      CancelBooks(cfg, s, c, id, t.reg, s.reg.entries[id].status == Pending, t);
    } else {
      CommandStepKeeps(cfg, s, t, c);
    }
  }

  lemma CancelBooks(cfg: Config, s: System, c: nat, id: nat, reg: Registry, removed: bool, t: System)
    requires Bookkeeping(cfg, s) && c < |s.commands| && s.commands[c].ack == Waits(id) && s.commands[c].pc == Cancelling
    requires id < |s.reg.entries| && reg.closed == s.reg.closed && removed == (s.reg.entries[id].status == Pending)
    requires reg.entries == if removed then s.reg.entries[id := Settled(s.reg.entries[id], Cancelled)] else s.reg.entries
    requires t == SetCommand(s.(reg := reg), c, s.commands[c].(pc := if removed then Refusing(PublishFailed) else Finished))
    ensures Bookkeeping(cfg, t)
  {
    assert CommandInv(cfg, s, c);
    forall d | 0 <= d < |t.commands| ensures CommandInv(cfg, t, d) {
      assert CommandInv(cfg, s, d);
      if d != c { SameViewInv(cfg, s, t, d); }
    }
    forall i | 0 <= i < |t.reg.entries| ensures OwnerInv(t, i) { assert OwnerInv(s, i); }
  }

  /** What cancel does to the history. */
  lemma CancelOthers(r: Registry, id: nat)
    requires RegistryInv(r) && id < |r.entries|
    ensures var (next, removed) := CancelSection(r, id);
            && next.closed == r.closed
            && next.entries == if removed then r.entries[id := Settled(r.entries[id], Cancelled)] else r.entries
  {
    RemoveMeaning(r, id);
  }

  lemma TimerFiresKeeps(cfg: Config, s: System, id: nat)
    requires SystemInv(cfg, s) && Enabled(s, TimerFires(id))
    ensures SystemInv(cfg, Apply(cfg, s, TimerFires(id)))
  {
    var t := Apply(cfg, s, TimerFires(id));
    FireKeepsInv(s.reg, id);
    forall d | 0 <= d < |t.commands| ensures CommandInv(cfg, t, d) {
      assert CommandInv(cfg, s, d);
      SameViewInv(cfg, s, t, d);
    }
    forall i | 0 <= i < |t.reg.entries| ensures OwnerInv(t, i) { assert OwnerInv(s, i); }
  }

  lemma ExpireCallKeeps(cfg: Config, s: System, id: nat)
    requires SystemInv(cfg, s) && Enabled(s, ExpireCall(id))
    ensures SystemInv(cfg, Apply(cfg, s, ExpireCall(id)))
  {
    var t := Apply(cfg, s, ExpireCall(id));
    ExpireKeepsInv(s.reg, id);
    ExpireOthers(s.reg, id);
    ExpireBooks(cfg, s, id, t.reg, s.reg.entries[id].status == Pending, t);
  }

  /** What expire does to the history. */
  lemma ExpireOthers(r: Registry, id: nat)
    requires RegistryInv(r) && id < |r.entries|
    ensures var (next, removed) := ExpireSection(r, id);
            && next.closed == r.closed && (removed <==> r.entries[id].status == Pending)
            && next.entries == r.entries[id := r.entries[id].(timer := Idle, status := if removed then Expired else r.entries[id].status)]
  {
    RemoveMeaning(r, id);
  }

  lemma ExpireBooks(cfg: Config, s: System, id: nat, reg: Registry, removed: bool, t: System)
    requires Bookkeeping(cfg, s) && id < |s.reg.entries| && reg.closed == s.reg.closed
    requires removed == (s.reg.entries[id].status == Pending)
    requires reg.entries == s.reg.entries[id := s.reg.entries[id].(timer := Idle, status := if removed then Expired else s.reg.entries[id].status)]
    requires t == s.(reg := reg, notices := if removed then s.notices + {id} else s.notices)
    ensures Bookkeeping(cfg, t)
  {
    forall d | 0 <= d < |t.commands| ensures CommandInv(cfg, t, d) {
      assert CommandInv(cfg, s, d);
      if s.commands[d].ack != Waits(id) || !removed { SameViewInv(cfg, s, t, d); }
    }
    forall i | 0 <= i < |t.reg.entries| ensures OwnerInv(t, i) { assert OwnerInv(s, i); }
  }

  /** Steps in which a goroutine of entry `id` speaks for its command or moves on. */
  lemma EntryStepKeeps(cfg: Config, s: System, t: System, id: nat)
    requires Bookkeeping(cfg, s) && Owned(s, id)
    requires t.reg == s.reg && t.owner == s.owner && t.watcher == s.watcher && |t.commands| == |s.commands|
    requires t.notices - {id} == s.notices - {id} && t.notices <= s.notices
    requires t.deliveries - {id} == s.deliveries - {id} && t.deliveries.Keys <= s.deliveries.Keys
    requires forall d | 0 <= d < |s.commands| && d != s.owner[id] :: t.commands[d] == s.commands[d]
    requires t.commands[s.owner[id]].ack == s.commands[s.owner[id]].ack
    requires CommandInv(cfg, t, s.owner[id]) && t.wg == Share(t)
    ensures Bookkeeping(cfg, t)
  {
    assert OwnerInv(s, id);
    forall d | 0 <= d < |t.commands| ensures CommandInv(cfg, t, d) {
      assert CommandInv(cfg, s, d);
      if d != s.owner[id] {
        if s.commands[d].ack.Waits? {
          var other := s.commands[d].ack.id;
          assert other != id;
          assert other in s.deliveries <==> other in s.deliveries - {id};
          assert other in t.deliveries <==> other in t.deliveries - {id};
          assert other in s.notices <==> other in s.notices - {id};
          assert other in t.notices <==> other in t.notices - {id};
        }
        SameViewInv(cfg, s, t, d);
      }
    }
    forall i | 0 <= i < |t.reg.entries| ensures OwnerInv(t, i) { assert OwnerInv(s, i); }
  }

  lemma TimeoutErrorKeeps(cfg: Config, s: System, id: nat)
    requires SystemInv(cfg, s) && Enabled(s, TimeoutError(id))
    ensures SystemInv(cfg, Apply(cfg, s, TimeoutError(id)))
  {
    assert OwnerInv(s, id) && CommandInv(cfg, s, s.owner[id]);
    EntryStepKeeps(cfg, s, Apply(cfg, s, TimeoutError(id)), id);
  }

  lemma DeliveryRespondsKeeps(cfg: Config, s: System, id: nat, ok: bool)
    requires SystemInv(cfg, s) && Enabled(s, DeliveryResponds(id, ok))
    ensures SystemInv(cfg, Apply(cfg, s, DeliveryResponds(id, ok)))
  {
    var t := Apply(cfg, s, DeliveryResponds(id, ok));
    assert OwnerInv(s, id) && CommandInv(cfg, s, s.owner[id]);
    assert t.deliveries.Keys == s.deliveries.Keys;
    EntryStepKeeps(cfg, s, t, id);
  }

  lemma DeliveryFailsKeeps(cfg: Config, s: System, id: nat)
    requires SystemInv(cfg, s) && Enabled(s, DeliveryFails(id))
    ensures SystemInv(cfg, Apply(cfg, s, DeliveryFails(id)))
  {
    var t := Apply(cfg, s, DeliveryFails(id));
    assert OwnerInv(s, id) && CommandInv(cfg, s, s.owner[id]);
    assert t.deliveries.Keys == s.deliveries.Keys;
    EntryStepKeeps(cfg, s, t, id);
  }

  lemma DeliveryEndsKeeps(cfg: Config, s: System, id: nat)
    requires SystemInv(cfg, s) && Enabled(s, DeliveryEnds(id))
    ensures SystemInv(cfg, Apply(cfg, s, DeliveryEnds(id)))
  {
    var t := Apply(cfg, s, DeliveryEnds(id));
    assert OwnerInv(s, id) && CommandInv(cfg, s, s.owner[id]);
    DeliveryGone(s.deliveries, id);
    EntryStepKeeps(cfg, s, t, id);
  }

  lemma DeliveryGone(deliveries: map<nat, Delivery>, id: nat)
    requires id in deliveries
    ensures |deliveries - {id}| == |deliveries| - 1
    ensures (deliveries - {id}) - {id} == deliveries - {id}
  {
    assert deliveries.Keys == (deliveries - {id}).Keys + {id};
  }

  lemma ObserveBeginsKeeps(cfg: Config, s: System, ieee: string, payload: string)
    requires SystemInv(cfg, s)
    ensures SystemInv(cfg, Apply(cfg, s, ObserveBegins(ieee, payload)))
  {
    var t := Apply(cfg, s, ObserveBegins(ieee, payload));
    forall d | 0 <= d < |t.commands| ensures CommandInv(cfg, t, d) {
      assert CommandInv(cfg, s, d);
      SameViewInv(cfg, s, t, d);
    }
    forall i | 0 <= i < |t.reg.entries| ensures OwnerInv(t, i) { assert OwnerInv(s, i); }
  }

  lemma ShutdownKeeps(cfg: Config, s: System)
    requires SystemInv(cfg, s) && Enabled(s, Shutdown)
    ensures SystemInv(cfg, Apply(cfg, s, Shutdown))
  {
    var t := Apply(cfg, s, Shutdown);
    CloseKeepsInv(s.reg);
    forall d | 0 <= d < |t.commands| ensures CommandInv(cfg, t, d) {
      assert CommandInv(cfg, s, d);
      if s.commands[d].ack.Waits? && s.reg.entries[s.commands[d].ack.id].status == Pending {
        assert OwnerInv(s, s.commands[d].ack.id);
      } else {
        SameViewInv(cfg, s, t, d);
      }
    }
    forall i | 0 <= i < |t.reg.entries| ensures OwnerInv(t, i) { assert OwnerInv(s, i); }
  }

  lemma WatcherEndsKeeps(cfg: Config, s: System)
    requires SystemInv(cfg, s) && Enabled(s, WatcherEnds)
    ensures SystemInv(cfg, Apply(cfg, s, WatcherEnds))
  {
    var t := Apply(cfg, s, WatcherEnds);
    forall d | 0 <= d < |t.commands| ensures CommandInv(cfg, t, d) {
      assert CommandInv(cfg, s, d);
      SameViewInv(cfg, s, t, d);
    }
    forall i | 0 <= i < |t.reg.entries| ensures OwnerInv(t, i) { assert OwnerInv(s, i); }
  }

  // ---------- the match step ----------

  lemma {:induction false} IncreasingCard(list: seq<nat>)
    requires Increasing(list)
    ensures |Elements(list)| == |list|
  {
    if list == [] {
      assert Elements(list) == {};
    } else {
      var init := list[..|list| - 1];
      var last := list[|list| - 1];
      IncreasingCard(init);
      assert list == init + [last];
      assert Elements(list) == Elements(init) + {last};
      assert last !in Elements(init);
    }
  }

  /** wg.Add counts exactly the deliveries that start. */
  lemma StartedCount(deliveries: map<nat, Delivery>, ids: set<nat>, payload: string)
    requires deliveries.Keys !! ids
    ensures |deliveries + Started(ids, payload)| == |deliveries| + |ids|
  {
    var all := deliveries + Started(ids, payload);
    assert all.Keys == deliveries.Keys + ids;
    assert |all| == |all.Keys| && |deliveries| == |deliveries.Keys|;
  }

  lemma ObserveMatchesKeeps(cfg: Config, s: System, o: nat)
    requires SystemInv(cfg, s) && Enabled(s, ObserveMatches(o))
    ensures SystemInv(cfg, Apply(cfg, s, ObserveMatches(o)))
  {
    var parsed := ParseFields(cfg.parse, s.observers[o].payload);
    if parsed.Some? {
      var t, ids := ObserveShape(cfg, s, o, parsed.value);
      MatchStepKeeps(cfg, s, ids, s.observers[o].ieee, s.observers[o].payload, parsed.value, t);
    } else {
      ObserveNothing(cfg, s, Apply(cfg, s, ObserveMatches(o)));
    }
  }

  /** What a match step does, without the registry's own functions. */
  lemma ObserveShape(cfg: Config, s: System, o: nat, state: Fields) returns (t: System, ids: set<nat>)
    requires RegistryInv(s.reg) && Enabled(s, ObserveMatches(o)) && ParseFields(cfg.parse, s.observers[o].payload) == Some(state)
    ensures t == Apply(cfg, s, ObserveMatches(o)) && RegistryInv(t.reg)
    ensures t == s.(reg := t.reg, deliveries := s.deliveries + Started(ids, s.observers[o].payload), wg := s.wg + |ids|, observers := t.observers)
    ensures Collects(cfg.fold, s.observers[o].ieee, state, s.reg, ids, t.reg)
  {
    var observer := s.observers[o];
    var (reg, matched) := MatchSection(s.reg, cfg.fold, observer.ieee, state);
    CollectedFacts(s.reg, cfg.fold, observer.ieee, state, reg, matched);
    t, ids := Apply(cfg, s, ObserveMatches(o)), Elements(matched);
  }

  lemma CollectedFacts(r: Registry, fold: string -> string, ieee: string, state: Fields, next: Registry, matched: seq<nat>)
    requires RegistryInv(r) && (next, matched) == MatchSection(r, fold, ieee, state)
    ensures Collects(fold, ieee, state, r, Elements(matched), next) && RegistryInv(next)
    ensures |Elements(matched)| == |matched|
  {
    MatchKeepsInv(r, fold, ieee, state);
    MatchMeaning(r, fold, ieee, state);
    IncreasingCard(matched);
  }

  lemma ObserveNothing(cfg: Config, s: System, t: System)
    requires Bookkeeping(cfg, s) && t == s.(observers := t.observers)
    ensures Bookkeeping(cfg, t)
  {
    forall d | 0 <= d < |t.commands| ensures CommandInv(cfg, t, d) {
      assert CommandInv(cfg, s, d);
      SameViewInv(cfg, s, t, d);
    }
    forall i | 0 <= i < |t.reg.entries| ensures OwnerInv(t, i) { assert OwnerInv(s, i); }
  }

  lemma MatchStepKeeps(cfg: Config, s: System, ids: set<nat>, ieee: string, payload: string, state: Fields, t: System)
    requires Bookkeeping(cfg, s) && ParseFields(cfg.parse, payload) == Some(state)
    requires Collects(cfg.fold, ieee, state, s.reg, ids, t.reg)
    requires t == s.(reg := t.reg, deliveries := s.deliveries + Started(ids, payload), wg := s.wg + |ids|, observers := t.observers)
    ensures Bookkeeping(cfg, t)
  {
    MatchedCount(cfg, s, ids, ieee, payload, state, t.reg);
    MatchedCommands(cfg, s, ids, ieee, payload, state, t);
    MatchedOwners(cfg, s, ids, ieee, payload, state, t);
  }

  lemma MatchedCount(cfg: Config, s: System, ids: set<nat>, ieee: string, payload: string, state: Fields, reg: Registry)
    requires Bookkeeping(cfg, s) && Collects(cfg.fold, ieee, state, s.reg, ids, reg)
    ensures |s.deliveries + Started(ids, payload)| == |s.deliveries| + |ids|
  {
    forall id | id in ids ensures id !in s.deliveries { assert OwnerInv(s, id); }
    StartedCount(s.deliveries, ids, payload);
  }

  lemma MatchedCommands(cfg: Config, s: System, ids: set<nat>, ieee: string, payload: string, state: Fields, t: System)
    requires Bookkeeping(cfg, s) && ParseFields(cfg.parse, payload) == Some(state)
    requires Collects(cfg.fold, ieee, state, s.reg, ids, t.reg)
    requires t == s.(reg := t.reg, deliveries := s.deliveries + Started(ids, payload), wg := t.wg, observers := t.observers)
    ensures CommandsInv(cfg, t)
  {
    forall d | 0 <= d < |t.commands| ensures CommandInv(cfg, t, d) {
      assert CommandInv(cfg, s, d);
      MatchedCommand(cfg, s, t, d, ids, payload, state);
    }
  }

  lemma MatchedOwners(cfg: Config, s: System, ids: set<nat>, ieee: string, payload: string, state: Fields, t: System)
    requires Bookkeeping(cfg, s) && Collects(cfg.fold, ieee, state, s.reg, ids, t.reg)
    requires t == s.(reg := t.reg, deliveries := s.deliveries + Started(ids, payload), wg := t.wg, observers := t.observers)
    ensures OwnersInv(t)
  {
    forall i | 0 <= i < |t.reg.entries| ensures OwnerInv(t, i) {
      assert OwnerInv(s, i);
      MatchedOwner(s, t, i, ids, payload);
    }
  }

  lemma MatchedCommand(cfg: Config, s: System, t: System, d: nat, ids: set<nat>, payload: string, state: Fields)
    requires d < |s.commands| && CommandInv(cfg, s, d) && ParseFields(cfg.parse, payload) == Some(state)
    requires t == s.(reg := t.reg, deliveries := s.deliveries + Started(ids, payload), wg := t.wg, observers := t.observers)
    requires t.reg.closed == s.reg.closed && |t.reg.entries| == |s.reg.entries|
    requires s.commands[d].ack.Waits? ==>
               var id := s.commands[d].ack.id;
               && (id in ids ==> s.reg.entries[id].status == Pending && Matches(cfg.fold, s.reg.entries[id].expected, state))
               && t.reg.entries[id] == if id in ids then Settled(s.reg.entries[id], Matched) else s.reg.entries[id]
    ensures CommandInv(cfg, t, d)
  {
    if !(s.commands[d].ack.Waits? && s.commands[d].ack.id in ids) { SameViewInv(cfg, s, t, d); }
  }

  lemma MatchedOwner(s: System, t: System, i: nat, ids: set<nat>, payload: string)
    requires i < |s.reg.entries| == |t.reg.entries| && OwnerInv(s, i) && t.reg.closed == s.reg.closed
    requires t == s.(reg := t.reg, deliveries := s.deliveries + Started(ids, payload), wg := t.wg, observers := t.observers)
    requires i in ids ==> s.reg.entries[i].status == Pending
    requires t.reg.entries[i] == if i in ids then Settled(s.reg.entries[i], Matched) else s.reg.entries[i]
    ensures OwnerInv(t, i)
  {
  }

  lemma StepKeepsInv(cfg: Config, s: System, step: Step)
    requires SystemInv(cfg, s) && Enabled(s, step)
    ensures SystemInv(cfg, Apply(cfg, s, step))
  {
    match step
    case Arrive(deviceId, serviceId, commandId, data) => ArriveKeeps(cfg, s, deviceId, serviceId, commandId, data);
    case BeginSet(c, exposes, lastState) => BeginSetKeeps(cfg, s, c, exposes, lastState);
    case ReadState(c, value) => ReadStateKeeps(cfg, s, c, value);
    case Publish(c, ok) => PublishKeeps(cfg, s, c, ok);
    case CancelAck(c) => CancelAckKeeps(cfg, s, c);
    case Refuse(c) => RefuseKeeps(cfg, s, c);
    case Respond(c, ok) => RespondKeeps(cfg, s, c, ok);
    case TimerFires(id) => TimerFiresKeeps(cfg, s, id);
    case ExpireCall(id) => ExpireCallKeeps(cfg, s, id);
    case TimeoutError(id) => TimeoutErrorKeeps(cfg, s, id);
    case ObserveBegins(ieee, payload) => ObserveBeginsKeeps(cfg, s, ieee, payload);
    case ObserveMatches(o) => ObserveMatchesKeeps(cfg, s, o);
    case DeliveryResponds(id, ok) => DeliveryRespondsKeeps(cfg, s, id, ok);
    case DeliveryFails(id) => DeliveryFailsKeeps(cfg, s, id);
    case DeliveryEnds(id) => DeliveryEndsKeeps(cfg, s, id);
    case Shutdown => ShutdownKeeps(cfg, s);
    case WatcherEnds => WatcherEndsKeeps(cfg, s);
  }
}
