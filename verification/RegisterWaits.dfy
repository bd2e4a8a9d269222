/**
 Callers that wait for the first Set of the device register (waitForInit in
 pkg/zigbee2mqtt/register.go), as a step system: calls of Set, the clock, and for every caller the end of
 its wait and its answer under the mutex.
 */
module RegisterWaits {
  import opened Common
  import opened DeviceRegister

  const SECOND := 1
  const NIL_TIMEOUT := 60 * SECOND

  /** The caller's context: none given, or one with or without a deadline that its owner may cancel. */
  datatype Context = Nil | Given(deadline: Option<int>)

  datatype Query = ByKey(field: Field, key: string) | Whole

  /** What ended a wait first. Go shows the second and third alike, as context.Canceled. */
  datatype Cause = AlreadyInitialised | FirstSet | CallerCancelled | DeadlinePassed

  datatype LookupReply = OneDevice(device: Device) | AllDevices(devices: seq<Device>) | Failure(error: LookupError)

  /** `before` is the number of Set calls and `began` the time when it asked, `seen` and `after` the list and that number at the answer. */
  datatype Caller = Caller(
    query: Query, context: Context, before: nat, began: int,
    cause: Option<Cause>, reply: Option<LookupReply>, seen: seq<Device>, after: nat)

  datatype System = System(list: seq<Device>, calls: nat, now: int, callers: seq<Caller>)

  datatype Step =
    | Set(devices: seq<Device>)
    | Tick(now: int)
    | Ask(query: Query, context: Context)
    | Release(i: nat)
    | Cancel(i: nat)
    | Expire(i: nat)
    | Return(i: nat)

  function Start(now: int): System {
    System([], 0, now, [])
  }

  /** The caller's own deadline, or one minute after it asked without a context. */
  function Deadline(c: Caller): Option<int> {
    match c.context
    case Nil => Some(c.began + NIL_TIMEOUT)
    case Given(deadline) => deadline
  }

  predicate Waiting(s: System, i: nat) {
    i < |s.callers| && s.callers[i].cause.None?
  }

  predicate Enabled(s: System, step: Step) {
    match step
    case Set(_) => true
    case Tick(now) => s.now <= now
    case Ask(_, _) => true
    case Release(i) => Waiting(s, i) && s.calls > 0
    case Cancel(i) => Waiting(s, i) && s.callers[i].context.Given?
    case Expire(i) => Waiting(s, i) && Deadline(s.callers[i]).Some? && Deadline(s.callers[i]).value <= s.now
    case Return(i) => i < |s.callers| && s.callers[i].cause.Some? && s.callers[i].reply.None?
  }

  function WaitOf(cause: Cause): Wait {
    match cause
    case AlreadyInitialised => Ready
    case FirstSet => Canceled
    case CallerCancelled => Canceled
    case DeadlinePassed => Expired
  }

  /** The rest of a lookup after its wait, as the lookups of the register do it. */
  function ReplyTo(query: Query, wait: Wait, list: seq<Device>): LookupReply {
    match query
    case Whole =>
      var r := ListIn(list, wait);
      if r.Ok? then AllDevices(r.value) else Failure(r.error)
    case ByKey(f, key) =>
      var r := LookupIn(list, f, key, wait);
      if r.Ok? then OneDevice(r.value) else Failure(r.error)
  }

  function SetCaller(s: System, i: nat, c: Caller): System
    requires i < |s.callers|
  {
    s.(callers := s.callers[i := c])
  }

  function Apply(s: System, step: Step): System
    requires Enabled(s, step)
  {
    match step
    case Set(devices) => s.(list := devices, calls := s.calls + 1)
    case Tick(now) => s.(now := now)
    case Ask(query, context) =>
      var cause := if s.calls > 0 then Some(AlreadyInitialised) else None;
      s.(callers := s.callers + [Caller(query, context, s.calls, s.now, cause, None, [], 0)])
    case Release(i) => SetCaller(s, i, s.callers[i].(cause := Some(FirstSet)))
    case Cancel(i) => SetCaller(s, i, s.callers[i].(cause := Some(CallerCancelled)))
    case Expire(i) => SetCaller(s, i, s.callers[i].(cause := Some(DeadlinePassed)))
    case Return(i) =>
      var c := s.callers[i];
      SetCaller(s, i, c.(reply := Some(ReplyTo(c.query, WaitOf(c.cause.value), s.list)), seen := s.list, after := s.calls))
  }

  function Run(start: int, steps: seq<Step>): Option<System> {
    if steps == [] then Some(Start(start))
    else
      match Run(start, steps[..|steps| - 1])
      case None => None
      case Some(s) =>
        var step := steps[|steps| - 1];
        if Enabled(s, step) then Some(Apply(s, step)) else None
  }

  // ---------- the invariant ----------

  ghost predicate CauseInv(s: System, c: Caller)
    requires c.cause.Some?
  {
    match c.cause.value
    case AlreadyInitialised => c.before > 0
    case FirstSet => c.before == 0 && s.calls > 0
    case CallerCancelled => c.before == 0 && c.context.Given?
    case DeadlinePassed => c.before == 0 && Deadline(c).Some? && Deadline(c).value <= s.now
  }

  ghost predicate ReplyInv(s: System, c: Caller) {
    c.reply.Some? ==>
      && c.cause.Some? && c.before <= c.after <= s.calls
      && (c.cause == Some(FirstSet) ==> c.after > 0)
      && (c.after == 0 ==> c.seen == [])
      && c.reply.value == ReplyTo(c.query, WaitOf(c.cause.value), c.seen)
  }

  ghost predicate CallerInv(s: System, c: Caller) {
    && c.before <= s.calls && c.began <= s.now
    && (c.cause.None? ==> c.before == 0)
    && (c.cause.Some? ==> CauseInv(s, c))
    && ReplyInv(s, c)
  }

  ghost predicate Inv(s: System) {
    && (s.calls == 0 ==> s.list == [])
    && forall i | 0 <= i < |s.callers| :: CallerInv(s, s.callers[i])
  }

  lemma StepKeepsInv(s: System, step: Step)
    requires Inv(s) && Enabled(s, step)
    ensures Inv(Apply(s, step))
  {
    var t := Apply(s, step);
    forall i | 0 <= i < |t.callers| ensures CallerInv(t, t.callers[i]) {
      if i < |s.callers| {
        assert CallerInv(s, s.callers[i]);
      }
    }
  }

  lemma {:induction false} Reachable(start: int, steps: seq<Step>)
    requires Run(start, steps).Some?
    ensures Inv(Run(start, steps).value)
  {
    if steps != [] {
      Reachable(start, steps[..|steps| - 1]);
      StepKeepsInv(Run(start, steps[..|steps| - 1]).value, steps[|steps| - 1]);
    }
  }

  // ---------- the theorems ----------

  /**
   When a caller gets a deadline error: exactly when its deadline ended the wait. Then it had asked before
   the first Set, and its deadline has passed, which without a context is a minute after it asked.
   */
  lemma DeadlineError(start: int, steps: seq<Step>, i: nat)
    requires Run(start, steps).Some?
    requires i < |Run(start, steps).value.callers| && Run(start, steps).value.callers[i].reply.Some?
    ensures var s := Run(start, steps).value;
      var c := s.callers[i];
      && (c.reply.value == Failure(DeadlineExceeded) <==> c.cause == Some(DeadlinePassed))
      && (c.reply.value == Failure(DeadlineExceeded) ==>
            && c.before == 0 && Deadline(c).Some? && Deadline(c).value <= s.now
            && (c.context.Nil? ==> s.now - c.began >= 60))
  {
    Reachable(start, steps);
    assert CallerInv(Run(start, steps).value, Run(start, steps).value.callers[i]);
  }

  /**
   What is answered before the first Set. Only a deadline or the caller's own cancel ends a wait then, and
   after a cancel the answer is an error for the lookups and the empty list, no error, for List.
   */
  lemma AnsweredBeforeFirstSet(start: int, steps: seq<Step>, i: nat)
    requires Run(start, steps).Some?
    requires i < |Run(start, steps).value.callers| && Run(start, steps).value.callers[i].reply.Some?
    requires Run(start, steps).value.callers[i].after == 0
    ensures var c := Run(start, steps).value.callers[i];
      match c.cause
      case Some(DeadlinePassed) => c.reply.value == Failure(DeadlineExceeded)
      case Some(CallerCancelled) =>
        && c.context.Given?
        && c.reply.value == if c.query.Whole? then AllDevices([]) else Failure(NotFound)
      case _ => false
  {
    Reachable(start, steps);
    assert CallerInv(Run(start, steps).value, Run(start, steps).value.callers[i]);
  }

  /** A caller without a context never reads a register that was not set. */
  lemma NilContextIsSafe(start: int, steps: seq<Step>, i: nat)
    requires Run(start, steps).Some?
    requires i < |Run(start, steps).value.callers| && Run(start, steps).value.callers[i].reply.Some?
    requires Run(start, steps).value.callers[i].context.Nil?
    ensures var c := Run(start, steps).value.callers[i];
      c.reply.value != Failure(DeadlineExceeded) ==> c.after > 0
  {
    Reachable(start, steps);
    assert CallerInv(Run(start, steps).value, Run(start, steps).value.callers[i]);
  }

  /** When a lookup that did not run into its deadline ends without an error: iff the list it read has the key. */
  lemma FoundIff(start: int, steps: seq<Step>, i: nat)
    requires Run(start, steps).Some?
    requires i < |Run(start, steps).value.callers| && Run(start, steps).value.callers[i].reply.Some?
    requires Run(start, steps).value.callers[i].cause != Some(DeadlinePassed)
    ensures var c := Run(start, steps).value.callers[i];
      match c.query
      case Whole => c.reply.value == AllDevices(c.seen)
      case ByKey(f, key) =>
        && (c.reply.value.Failure? <==> forall d | d in c.seen :: Key(d, f) != key)
        && (!c.reply.value.Failure? ==> c.reply.value.OneDevice? && c.reply.value.device in c.seen && Key(c.reply.value.device, f) == key)
  {
    Reachable(start, steps);
    var c := Run(start, steps).value.callers[i];
    assert CallerInv(Run(start, steps).value, c);
    if c.query.ByKey? {
      LastMatchMeaning(c.seen, c.query.field, c.query.key);
    }
  }

  /** After the first Set every waiting caller can be answered at once, and not with a deadline error. */
  lemma CanBeAnswered(s: System, i: nat) returns (t: System)
    requires Inv(s) && s.calls > 0 && Waiting(s, i)
    ensures Enabled(s, Release(i)) && Enabled(Apply(s, Release(i)), Return(i))
    ensures t == Apply(Apply(s, Release(i)), Return(i))
    ensures t.callers[i].reply.Some? && t.callers[i].reply.value != Failure(DeadlineExceeded)
  {
    assert CallerInv(s, s.callers[i]);
    t := Apply(Apply(s, Release(i)), Return(i));
  }

  /** The comments on the lookups promise no error here: asked, cancelled, answered, all before the first Set. */
  lemma CancelledLookupFails(start: int) returns (steps: seq<Step>)
    ensures Run(start, steps).Some?
    ensures var s := Run(start, steps).value;
      |s.callers| == 1 && s.callers[0].cause == Some(CallerCancelled) && s.callers[0].reply == Some(Failure(NotFound))
  {
    var ask := Ask(ByKey(Ieee, "0x1"), Given(None));
    steps := [ask, Cancel(0), Return(0)];
    assert steps[..2][..1][..0] == [];
    assert steps[..2][..1] == [ask] && steps[..2] == [ask, Cancel(0)];
    assert Run(start, []) == Some(Start(start));
    assert Run(start, [ask]) == Some(Apply(Start(start), ask));
    assert Run(start, [ask, Cancel(0)]) == Some(Apply(Apply(Start(start), ask), Cancel(0)));
  }
}
