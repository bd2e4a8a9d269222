/**
 handleSet (pkg/connector/command.go) as the command loop runs it on the registry object, with what
 the other goroutines do to the registry while the publish is under way. AckProtocol has the same
 code cut into its atomic steps, with several commands in progress.
 */
module SetHandling {
  import opened Common
  import opened AckMatching
  import opened AckSections
  import opened AckRegistry
  import opened AckProtocol

  /** Something that reaches the registry during the publish. */
  datatype Meanwhile = State(ieee: string, payload: string) | Deadline | Shutdown

  /** It takes a waiting entry off the registry: answered, timed out, or dropped. */
  predicate Takes(m: Meanwhile, fold: string -> string, parse: string -> Option<Json>, ieee: string, expected: Fields) {
    match m
    case Deadline => true
    case Shutdown => true
    case State(from, payload) =>
      var state := ParseFields(parse, payload);
      from == ieee && state.Some? && Matches(fold, expected, state.value)
  }

  ghost predicate Taken(meanwhile: seq<Meanwhile>, n: nat, fold: string -> string, parse: string -> Option<Json>, ieee: string, expected: Fields)
    requires n <= |meanwhile|
  {
    exists i :: 0 <= i < n && Takes(meanwhile[i], fold, parse, ieee, expected)
  }

  ghost predicate IsPending(entries: seq<Entry>, entry: PendingAck) {
    entry.id < |entries| && entries[entry.id].status == Pending
  }

  /** No expire call of the entry is under way. */
  ghost predicate NotFiring(entries: seq<Entry>, entry: PendingAck) {
    entry.id < |entries| && entries[entry.id].timer != Firing
  }

  /** A published state takes an entry iff it is one of its device and shows all it waits for. */
  lemma TakesMeaning(from: string, payload: string, fold: string -> string, parse: string -> Option<Json>, ieee: string, expected: Fields)
    ensures Takes(State(from, payload), fold, parse, ieee, expected)
       <==> && from == ieee && ParseFields(parse, payload).Some?
            && var state := ParseFields(parse, payload).value;
               forall key | key in expected :: key in state && (IsToggle(fold, expected[key]) || Agree(fold, expected[key], state[key]))
  {
    var state := ParseFields(parse, payload);
    if state.Some? {
      MatchesMeaning(fold, expected, state.value);
    }
  }

  /** What one entry notices of an Observe call. */
  lemma ObserveEffect(r: Registry, fold: string -> string, parse: string -> Option<Json>, from: string, payload: string, id: nat)
    requires RegistryInv(r) && id < |r.entries|
    ensures var next := ObserveAlone(r, fold, parse, from, payload).0;
      && |next.entries| == |r.entries|
      && (next.entries[id].status == Pending
          <==> r.entries[id].status == Pending && !Takes(State(from, payload), fold, parse, r.entries[id].ieee, r.entries[id].expected))
      && (next.entries[id].timer == Firing ==> r.entries[id].timer == Firing)
  {
    assert EntryInv(r, id);
    var state := ParseFields(parse, payload);
    if HasPending(r, from) && state.Some? {
      MatchMeaning(r, fold, from, state.value);
    }
  }

  class Client {
    const parse: string -> Option<Json>
    const acks: Acks?

    constructor (parse: string -> Option<Json>, acks: Acks?)
      ensures this.parse == parse && this.acks == acks
    {
      this.parse, this.acks := parse, acks;
    }

    /** One action of another goroutine; `entry` is the one the command loop has just registered. */
    method Interfere(acks: Acks, entry: PendingAck, m: Meanwhile)
      requires acks.Valid() && entry in acks.timers
      requires NotFiring(acks.entries, entry)
      modifies acks
      ensures acks.Valid() && entry in acks.timers
      ensures NotFiring(acks.entries, entry)
      ensures IsPending(acks.entries, entry)
         <==> IsPending(old(acks.entries), entry) && !Takes(m, acks.fold, parse, entry.ieee, entry.expected)
    {
      assert Describes(entry, acks.timers[entry], acks.entries, acks.registered);
      match m
      case State(from, payload) =>
        ObserveEffect(acks.Abs(), acks.fold, parse, from, payload, entry.id);
        var matched := acks.Observe(parse, from, payload);
      case Deadline =>
        PassDeadline(acks, entry);
      case Shutdown =>
        CloseKeepsInv(acks.Abs());
        acks.Close();
    }

    /** The runtime starts the expire call of a waiting entry, and it gets the mutex. */
    method PassDeadline(acks: Acks, entry: PendingAck)
      requires acks.Valid() && entry in acks.timers
      requires NotFiring(acks.entries, entry)
      modifies acks
      ensures acks.Valid() && entry in acks.timers
      ensures NotFiring(acks.entries, entry) && !IsPending(acks.entries, entry)
    {
      assert Describes(entry, acks.timers[entry], acks.entries, acks.registered);
      assert EntryInv(acks.Abs(), entry.id);
      if acks.timers[entry] == Armed {
        acks.TimerFires(entry);
        ExpireFires(acks, entry);
        var removed := acks.Expire(entry);
      }
    }

    lemma ExpireFires(acks: Acks, entry: PendingAck)
      requires acks.Valid() && entry in acks.timers
      ensures entry.id < |acks.entries|
      ensures acks.timers[entry] == Firing ==>
                var next := ExpireSection(acks.Abs(), entry.id).0;
                && |next.entries| == |acks.entries|
                && next.entries[entry.id].timer == Idle && next.entries[entry.id].status != Pending
    {
      assert Describes(entry, acks.timers[entry], acks.entries, acks.registered);
      if acks.timers[entry] == Firing {
        ExpireKeepsInv(acks.Abs(), entry.id);
      }
    }

    method Begin(acks: Acks, ieee: string, target: Target, expected: Fields) returns (entry: PendingAck?)
      requires acks.Valid()
      modifies acks
      ensures acks.Valid()
      ensures entry == null <==> old(acks.closed)
      ensures entry != null ==> entry in acks.timers && entry.ieee == ieee && entry.expected == expected
      ensures entry != null ==> NotFiring(acks.entries, entry) && IsPending(acks.entries, entry)
    {
      entry := acks.Register(ieee, target, expected);
      if entry != null {
        assert Describes(entry, acks.timers[entry], acks.entries, acks.registered);
      }
    }

    method WhilePublishing(acks: Acks, entry: PendingAck, meanwhile: seq<Meanwhile>)
      requires acks.Valid() && entry in acks.timers
      requires NotFiring(acks.entries, entry) && IsPending(acks.entries, entry)
      modifies acks
      ensures acks.Valid() && entry in acks.timers
      ensures IsPending(acks.entries, entry) <==> !Taken(meanwhile, |meanwhile|, acks.fold, parse, entry.ieee, entry.expected)
    {
      for i := 0 to |meanwhile|
        invariant acks.Valid() && entry in acks.timers && NotFiring(acks.entries, entry)
        invariant IsPending(acks.entries, entry) <==> !Taken(meanwhile, i, acks.fold, parse, entry.ieee, entry.expected)
      {
        Interfere(acks, entry, meanwhile[i]);
        assert Taken(meanwhile, i + 1, acks.fold, parse, entry.ieee, entry.expected)
          <==> Taken(meanwhile, i, acks.fold, parse, entry.ieee, entry.expected)
               || Takes(meanwhile[i], acks.fold, parse, entry.ieee, entry.expected);
      }
    }

    method CancelAck(acks: Acks, entry: PendingAck) returns (removed: bool)
      requires acks.Valid() && entry in acks.timers
      modifies acks
      ensures acks.Valid()
      ensures removed <==> IsPending(old(acks.entries), entry)
    {
      assert Describes(entry, acks.timers[entry], acks.entries, acks.registered);
      CancelKeepsInv(acks.Abs(), entry.id);
      removed := acks.Cancel(entry);
    }

    /**
     The answers the command loop itself gives. A command that waits for a state gets none from it,
     unless its publish failed and nothing took its entry meanwhile.
     */
    ghost function LoopAnswers(closed: bool, ieee: string, target: Target, data: string, exposes: seq<Feature>, lastState: Fields,
                               meanwhile: seq<Meanwhile>, published: bool, responded: bool): seq<Answer>
    {
      var expected := ExpectationOf(parse, data, exposes, lastState);
      var waits := acks != null && expected.Some?;
      if !published then
        if waits && !closed && Taken(meanwhile, |meanwhile|, acks.fold, parse, ieee, expected.value) then []
        else [Error(target.commandId, PublishFailed)]
      else if waits then []
      else if responded then [Response(true, target, "")]
      else [Response(false, target, ""), Error(target.commandId, RespondFailed)]
    }

    /** The answers of the command loop, case by case; `taken` is whether something took the entry meanwhile. */
    lemma LoopAnswersMeaning(closed: bool, ieee: string, target: Target, data: string, exposes: seq<Feature>, lastState: Fields,
                             meanwhile: seq<Meanwhile>, published: bool, responded: bool)
      ensures var answers := LoopAnswers(closed, ieee, target, data, exposes, lastState, meanwhile, published, responded);
        var expected := ExpectationOf(parse, data, exposes, lastState);
        var waits := acks != null && expected.Some?;
        && (!waits && published && responded ==> answers == [Response(true, target, "")])
        && (!waits && published && !responded ==> answers == [Response(false, target, ""), Error(target.commandId, RespondFailed)])
        && (!waits && !published ==> answers == [Error(target.commandId, PublishFailed)])
        && (waits && published ==> answers == [])
        && (waits && !published ==>
              var taken := !closed && exists i :: 0 <= i < |meanwhile| && Takes(meanwhile[i], acks.fold, parse, ieee, expected.value);
              answers == if taken then [] else [Error(target.commandId, PublishFailed)])
    {
    }

    method HandleSet(ieee: string, target: Target, data: string, exposes: seq<Feature>, lastState: Fields,
                     meanwhile: seq<Meanwhile>, published: bool, responded: bool) returns (answers: seq<Answer>)
      requires acks != null ==> acks.Valid()
      modifies acks
      ensures acks != null ==> acks.Valid()
      ensures answers == LoopAnswers(acks != null && old(acks.closed), ieee, target, data, exposes, lastState, meanwhile, published, responded)
    {
      var waits := false;
      var entry: PendingAck? := null;
      if acks != null {
        var expected, ok := AckExpectation(parse, data, exposes, lastState);
        if ok {
          waits := true;
          entry := Begin(acks, ieee, target, expected);
        }
      }
      if entry != null {
        WhilePublishing(acks, entry, meanwhile);
      }
      if !published {
        var cancelled := true;
        if entry != null {
          cancelled := CancelAck(acks, entry);
        }
        return if cancelled then [Error(target.commandId, PublishFailed)] else [];
      }
      if waits {
        return [];
      }
      answers := [Response(responded, target, "")];
      if !responded {
        answers := answers + [Error(target.commandId, RespondFailed)];
      }
    }
  }
}
