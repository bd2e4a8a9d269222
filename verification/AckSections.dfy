/**
 The acknowledgement registry as a value, and one function per critical section of its
 mutex (pkg/connector/ack.go, ackRegistry). Entries are named by their registration
 index, which stands for the pointer the code compares; `status` is history.
 */
module AckSections {
  import opened Common
  import opened AckMatching

  /** Armed: may still fire. Firing: the expire call was started and has not reached the mutex. Idle: stopped or done. */
  datatype Timer = Armed | Firing | Idle

  datatype Status = Pending | Matched | Expired | Cancelled | Dropped

  /** Where an answer of a command goes. */
  datatype Target = Target(deviceId: string, serviceId: string, commandId: string)

  datatype Entry = Entry(ieee: string, target: Target, expected: Fields, status: Status, timer: Timer)

  datatype Registry = Registry(pending: map<string, seq<nat>>, closed: bool, entries: seq<Entry>)

  const EMPTY := Registry(map[], false, [])

  // ---------- helpers ----------

  function ListOf<T>(pending: map<string, seq<T>>, ieee: string): seq<T> {
    if ieee in pending then pending[ieee] else []
  }

  /** An empty list is never stored: its key is deleted. */
  function Store<T>(pending: map<string, seq<T>>, ieee: string, list: seq<T>): map<string, seq<T>> {
    if list == [] then pending - {ieee} else pending[ieee := list]
  }

  function Stop(timer: Timer): Timer {
    if timer == Armed then Idle else timer
  }

  function Elements(list: seq<nat>): set<nat> {
    set id | id in list
  }

  function Settled(e: Entry, status: Status): Entry {
    e.(status := status, timer := Stop(e.timer))
  }

  /** The entries after those in `ids` were taken off the registry and their timers stopped. */
  function SettleAll(entries: seq<Entry>, ids: set<nat>, status: Status): seq<Entry> {
    if entries == [] then []
    else
      var last := |entries| - 1;
      SettleAll(entries[..last], ids, status) + [if last in ids then Settled(entries[last], status) else entries[last]]
  }

  lemma {:induction false} SettleAllAt(entries: seq<Entry>, ids: set<nat>, status: Status)
    ensures |SettleAll(entries, ids, status)| == |entries|
    ensures forall i | 0 <= i < |entries| ::
              SettleAll(entries, ids, status)[i] == if i in ids then Settled(entries[i], status) else entries[i]
  {
    if entries != [] {
      SettleAllAt(entries[..|entries| - 1], ids, status);
    }
  }

  lemma {:induction false} SettleAllTwice(entries: seq<Entry>, a: set<nat>, b: set<nat>, status: Status)
    ensures SettleAll(SettleAll(entries, a, status), b, status) == SettleAll(entries, a + b, status)
  {
    if entries != [] {
      var last := |entries| - 1;
      var once := SettleAll(entries, a, status);
      SettleAllAt(entries[..last], a, status);
      assert once[..last] == SettleAll(entries[..last], a, status);
      SettleAllTwice(entries[..last], a, b, status);
    }
  }

  // ---------- the critical sections ----------

  /** Register: None if the registry is closed. */
  function RegisterSection(r: Registry, ieee: string, target: Target, expected: Fields): (Registry, Option<nat>) {
    if r.closed then (r, None)
    else
      var id := |r.entries|;
      var pending := r.pending[ieee := ListOf(r.pending, ieee) + [id]];
      (Registry(pending, false, r.entries + [Entry(ieee, target, expected, Pending, Armed)]), Some(id))
  }

  /** removeLocked: drops the first occurrence of the entry from its device's list, if there is one. */
  function RemoveSection(r: Registry, id: nat): (Registry, bool)
    requires id < |r.entries|
  {
    var ieee := r.entries[id].ieee;
    var list := ListOf(r.pending, ieee);
    var i := FirstIndex(list, e => e == id);
    if i == |list| then (r, false)
    else (r.(pending := Store(r.pending, ieee, list[..i] + list[i + 1..])), true)
  }

  /** The closure returned by Register. */
  function CancelSection(r: Registry, id: nat): (Registry, bool)
    requires id < |r.entries|
  {
    var (next, removed) := RemoveSection(r, id);
    if removed then (next.(entries := r.entries[id := Settled(r.entries[id], Cancelled)]), true) else (r, false)
  }

  /** The runtime starts the expire call of an armed timer. */
  function FireTimer(r: Registry, id: nat): Registry
    requires id < |r.entries|
  {
    r.(entries := r.entries[id := r.entries[id].(timer := Firing)])
  }

  /** expire, up to the unlock. */
  function ExpireSection(r: Registry, id: nat): (Registry, bool)
    requires id < |r.entries|
  {
    var (next, removed) := RemoveSection(r, id);
    var e := r.entries[id].(timer := Idle);
    if removed then (next.(entries := r.entries[id := e.(status := Expired)]), true)
    else (r.(entries := r.entries[id := e]), false)
  }

  function HasPending(r: Registry, ieee: string): bool {
    |ListOf(r.pending, ieee)| > 0
  }

  function Hit(r: Registry, fold: string -> string, state: Fields): nat -> bool {
    (id: nat) => id < |r.entries| && Matches(fold, r.entries[id].expected, state)
  }

  function Miss(r: Registry, fold: string -> string, state: Fields): nat -> bool {
    (id: nat) => !(id < |r.entries| && Matches(fold, r.entries[id].expected, state))
  }

  /** The second critical section of Observe: what remains, and what was collected. */
  function MatchSection(r: Registry, fold: string -> string, ieee: string, state: Fields): (Registry, seq<nat>) {
    if r.closed then (r, [])
    else
      var list := ListOf(r.pending, ieee);
      var matched := Filter(list, Hit(r, fold, state));
      var rest := Filter(list, Miss(r, fold, state));
      (Registry(Store(r.pending, ieee, rest), false, SettleAll(r.entries, Elements(matched), Matched)), matched)
  }

  /** Observe as a whole, with nothing in between its two sections. */
  function ObserveAlone(r: Registry, fold: string -> string, parse: string -> Option<Json>, ieee: string, payload: string)
    : (Registry, seq<nat>)
  {
    if !HasPending(r, ieee) then (r, [])
    else
      match ParseFields(parse, payload)
      case None => (r, [])
      case Some(state) => MatchSection(r, fold, ieee, state)
  }

  /** The entries listed under some of the keys. */
  function IdsUnder(pending: map<string, seq<nat>>, keys: set<string>): set<nat> {
    set k, id | k in keys && k in pending && id in pending[k] :: id
  }

  function AllPending(r: Registry): set<nat> {
    IdsUnder(r.pending, r.pending.Keys)
  }

  /** close */
  function CloseSection(r: Registry): Registry {
    Registry(map[], true, SettleAll(r.entries, AllPending(r), Dropped))
  }

  // ---------- the registry invariant ----------

  predicate Increasing(list: seq<nat>) {
    list == [] || (Increasing(list[..|list| - 1]) && Below(list[..|list| - 1], list[|list| - 1]))
  }

  predicate Below(list: seq<nat>, x: nat) {
    forall e | e in list :: e < x
  }

  lemma {:induction false} IncreasingAt(list: seq<nat>, i: nat, j: nat)
    requires i < j < |list| && Increasing(list)
    ensures list[i] < list[j]
  {
    var last := |list| - 1;
    if j == last {
      assert list[i] in list[..last];
    } else {
      IncreasingAt(list[..last], i, j);
    }
  }

  ghost predicate EntryInv(r: Registry, id: nat)
    requires id < |r.entries|
  {
    var e := r.entries[id];
    // exactly one of: pending in the map, or one terminal status
    && (e.status == Pending <==> e.ieee in r.pending && id in r.pending[e.ieee])
    // a pending entry has an armed timer or an outstanding expire call
    && (e.status == Pending ==> e.timer != Idle)
    // a settled entry never fires again
    && (e.status != Pending ==> e.timer != Armed)
    && (e.status == Expired ==> e.timer == Idle)
  }

  ghost predicate ListInv(r: Registry, ieee: string)
    requires ieee in r.pending
  {
    && r.pending[ieee] != []
    && Increasing(r.pending[ieee])   // registration order
    && forall id | id in r.pending[ieee] :: id < |r.entries| && r.entries[id].ieee == ieee
  }

  ghost predicate RegistryInv(r: Registry) {
    && (forall ieee | ieee in r.pending :: ListInv(r, ieee))
    && (forall id | 0 <= id < |r.entries| :: EntryInv(r, id))
    && (r.closed ==> r.pending == map[])
  }

  /** What every section keeps of an entry's history: its identity, and its status once terminal. */
  ghost predicate Keeps(before: Entry, after: Entry) {
    && after.ieee == before.ieee && after.target == before.target && after.expected == before.expected
    && (before.status != Pending ==> after.status == before.status)
    && (before.timer == Idle ==> after.timer == Idle)
  }

  ghost predicate Advances(r: Registry, next: Registry) {
    && |r.entries| <= |next.entries|
    && (forall id | 0 <= id < |r.entries| :: Keeps(r.entries[id], next.entries[id]))
    && (r.closed ==> next.closed && |next.entries| == |r.entries|)
  }

  lemma RegisterKeepsInv(r: Registry, ieee: string, target: Target, expected: Fields)
    requires RegistryInv(r)
    ensures RegistryInv(RegisterSection(r, ieee, target, expected).0)
    ensures Advances(r, RegisterSection(r, ieee, target, expected).0)
  {
    var (next, _) := RegisterSection(r, ieee, target, expected);
    if !r.closed {
      var id := |r.entries|;
      assert ieee in r.pending ==> ListInv(r, ieee);
      IncreasingSnoc(ListOf(r.pending, ieee), id);
      forall k | k in next.pending ensures ListInv(next, k) {
        if k != ieee { assert ListInv(r, k); }
      }
      forall i | 0 <= i < |next.entries| ensures EntryInv(next, i) {
        if i < id { assert EntryInv(r, i); }
      }
    }
  }

  /** removeLocked finds the entry exactly when it is pending, and then takes only it. */
  lemma RemoveMeaning(r: Registry, id: nat)
    requires RegistryInv(r) && id < |r.entries|
    ensures RemoveSection(r, id).1 <==> r.entries[id].status == Pending
    ensures RemoveSection(r, id).1 ==>
              var ieee := r.entries[id].ieee;
              var next := RemoveSection(r, id).0;
              && next.entries == r.entries && next.closed == r.closed
              && ListOf(next.pending, ieee) == Filter(ListOf(r.pending, ieee), e => e != id)
              && next.pending == Store(r.pending, ieee, Filter(ListOf(r.pending, ieee), e => e != id))
  {
    assert EntryInv(r, id);
    var ieee := r.entries[id].ieee;
    var list := ListOf(r.pending, ieee);
    var i := FirstIndex(list, e => e == id);
    if i < |list| {
      assert ListInv(r, ieee);
      forall j | 0 <= j < |list| && j != i ensures list[j] != id {
        if i < j { IncreasingAt(list, i, j); }
      }
      FilterOut(list, i, id);
    }
  }

  /** Dropping one index of a strictly increasing list is filtering its value out. */
  lemma {:induction false} FilterOut(list: seq<nat>, i: nat, x: nat)
    requires i < |list| && list[i] == x && forall j | 0 <= j < |list| && j != i :: list[j] != x
    ensures Filter(list, e => e != x) == list[..i] + list[i + 1..]
  {
    var last := |list| - 1;
    var init := list[..last];
    if i == last {
      FilterAll(init, e => e != x);
      assert list[i + 1..] == [];
    } else {
      FilterOut(init, i, x);
      assert list[..i] == init[..i];
      assert list[i + 1..] == init[i + 1..] + [list[last]];
    }
  }

  lemma IncreasingSnoc(list: seq<nat>, x: nat)
    requires Increasing(list) && Below(list, x)
    ensures Increasing(list + [x])
  {
    assert (list + [x])[..|list|] == list;
  }

  lemma {:induction false} FilterIncreasing(list: seq<nat>, keep: nat -> bool)
    requires Increasing(list)
    ensures Increasing(Filter(list, keep))
  {
    if list != [] {
      var init := list[..|list| - 1];
      FilterIncreasing(init, keep);
      FilterMembers(init, keep);
      IncreasingSnoc(Filter(init, keep), list[|list| - 1]);
    }
  }

  /** Taking any set of entries off one device's list and settling them keeps the invariant. */
  lemma SettleKeepsInv(r: Registry, ieee: string, keep: nat -> bool, ids: set<nat>, status: Status, next: Registry)
    requires RegistryInv(r) && !r.closed
    requires status != Pending && status != Expired
    requires ids == set id | id in ListOf(r.pending, ieee) && !keep(id)
    requires next == Registry(Store(r.pending, ieee, Filter(ListOf(r.pending, ieee), keep)), false, SettleAll(r.entries, ids, status))
    ensures RegistryInv(next) && Advances(r, next)
  {
    var list := ListOf(r.pending, ieee);
    var rest := Filter(list, keep);
    assert ieee in r.pending ==> ListInv(r, ieee);
    FilterIncreasing(list, keep);
    FilterMembers(list, keep);
    SettleAllAt(r.entries, ids, status);
    forall k | k in next.pending ensures ListInv(next, k) {
      if k != ieee { assert ListInv(r, k); }
    }
    forall id | 0 <= id < |next.entries| ensures EntryInv(next, id) {
      assert EntryInv(r, id);
    }
    forall id | 0 <= id < |r.entries| ensures Keeps(r.entries[id], next.entries[id]) {
      assert EntryInv(r, id);
    }
  }

  lemma CancelKeepsInv(r: Registry, id: nat)
    requires RegistryInv(r) && id < |r.entries|
    ensures RegistryInv(CancelSection(r, id).0) && Advances(r, CancelSection(r, id).0)
    ensures CancelSection(r, id).1 <==> r.entries[id].status == Pending
  {
    RemoveMeaning(r, id);
    var (next, removed) := CancelSection(r, id);
    if removed {
      var keep := (e: nat) => e != id;
      var ieee := r.entries[id].ieee;
      assert EntryInv(r, id) && ListInv(r, ieee);
      assert (set e | e in ListOf(r.pending, ieee) && !keep(e)) == {id};
      SettleAllAt(r.entries, {id}, Cancelled);
      assert next.entries == SettleAll(r.entries, {id}, Cancelled);
      SettleKeepsInv(r, ieee, keep, {id}, Cancelled, next);
    }
  }

  lemma FireKeepsInv(r: Registry, id: nat)
    requires RegistryInv(r) && id < |r.entries| && r.entries[id].timer == Armed
    ensures RegistryInv(FireTimer(r, id)) && Advances(r, FireTimer(r, id))
  {
    var next := FireTimer(r, id);
    forall k | k in next.pending ensures ListInv(next, k) { assert ListInv(r, k); }
    forall i | 0 <= i < |next.entries| ensures EntryInv(next, i) { assert EntryInv(r, i); }
  }

  lemma ExpireKeepsInv(r: Registry, id: nat)
    requires RegistryInv(r) && id < |r.entries| && r.entries[id].timer == Firing
    ensures RegistryInv(ExpireSection(r, id).0) && Advances(r, ExpireSection(r, id).0)
    ensures ExpireSection(r, id).1 <==> r.entries[id].status == Pending
  {
    RemoveMeaning(r, id);
    assert EntryInv(r, id);
    var (next, removed) := ExpireSection(r, id);
    if removed {
      // the same as settling the entry and then recording that it expired
      var keep := (e: nat) => e != id;
      var ieee := r.entries[id].ieee;
      assert ListInv(r, ieee);
      var settled := Registry(next.pending, false, SettleAll(r.entries, {id}, Matched));
      SettleAllAt(r.entries, {id}, Matched);
      assert (set e | e in ListOf(r.pending, ieee) && !keep(e)) == {id};
      SettleKeepsInv(r, ieee, keep, {id}, Matched, settled);
      RelabelKeepsInv(settled, id, next);
    } else {
      TimerDoneKeepsInv(r, id);
    }
  }

  /** The end of an expire call that comes too late. */
  lemma TimerDoneKeepsInv(r: Registry, id: nat)
    requires RegistryInv(r) && id < |r.entries| && r.entries[id].status != Pending
    ensures RegistryInv(r.(entries := r.entries[id := r.entries[id].(timer := Idle)]))
  {
    var next := r.(entries := r.entries[id := r.entries[id].(timer := Idle)]);
    forall k | k in next.pending ensures ListInv(next, k) { assert ListInv(r, k); }
    forall i | 0 <= i < |next.entries| ensures EntryInv(next, i) { assert EntryInv(r, i); }
  }

  /** Recording a settled entry as expired, its timer done, keeps the invariant. */
  lemma RelabelKeepsInv(r: Registry, id: nat, next: Registry)
    requires RegistryInv(r) && id < |r.entries| && r.entries[id].status == Matched
    requires next == r.(entries := next.entries) && |next.entries| == |r.entries|
    requires next.entries[id] == r.entries[id].(status := Expired, timer := Idle)
    requires forall i | 0 <= i < |r.entries| && i != id :: next.entries[i] == r.entries[i]
    ensures RegistryInv(next)
  {
    forall k | k in next.pending ensures ListInv(next, k) { assert ListInv(r, k); }
    forall i | 0 <= i < |next.entries| ensures EntryInv(next, i) { assert EntryInv(r, i); }
  }

  /** The entries a state of the device answers. */
  predicate Answerable(fold: string -> string, ieee: string, state: Fields, e: Entry) {
    e.status == Pending && e.ieee == ieee && Matches(fold, e.expected, state)
  }

  /** `next` is `r` with the entries `ids` settled, all of them answerable. */
  ghost predicate Collects(fold: string -> string, ieee: string, state: Fields, r: Registry, ids: set<nat>, next: Registry) {
    && next.closed == r.closed && |next.entries| == |r.entries|
    && (forall id | id in ids :: id < |r.entries| && Answerable(fold, ieee, state, r.entries[id]))
    && (forall id | 0 <= id < |r.entries| :: next.entries[id] == if id in ids then Settled(r.entries[id], Matched) else r.entries[id])
  }

  /**
   The match section collects exactly the pending entries of the device that the state
   satisfies and settles those; every other entry is as before.
   */
  lemma MatchMeaning(r: Registry, fold: string -> string, ieee: string, state: Fields)
    requires RegistryInv(r)
    ensures Collects(fold, ieee, state, r, Elements(MatchSection(r, fold, ieee, state).1), MatchSection(r, fold, ieee, state).0)
    ensures forall id | 0 <= id < |r.entries| && Answerable(fold, ieee, state, r.entries[id]) :: id in MatchSection(r, fold, ieee, state).1
  {
    var (next, matched) := MatchSection(r, fold, ieee, state);
    var list := ListOf(r.pending, ieee);
    FilterMembers(list, Hit(r, fold, state));
    SettleAllAt(r.entries, Elements(matched), Matched);
    assert ieee in r.pending ==> ListInv(r, ieee);
    forall id | 0 <= id < |r.entries|
      ensures id in list <==> r.entries[id].status == Pending && r.entries[id].ieee == ieee
    {
      assert EntryInv(r, id);
    }
  }

  /** The live lists lose exactly the collected entries; RegistryInv keeps what remains in registration order. */
  lemma MatchLists(r: Registry, fold: string -> string, ieee: string, state: Fields)
    requires RegistryInv(r)
    ensures forall k :: k != ieee ==> ListOf(MatchSection(r, fold, ieee, state).0.pending, k) == ListOf(r.pending, k)
    ensures forall id :: id in ListOf(MatchSection(r, fold, ieee, state).0.pending, ieee)
                    <==> id in ListOf(r.pending, ieee) && id !in MatchSection(r, fold, ieee, state).1
  {
    var list := ListOf(r.pending, ieee);
    FilterMembers(list, Hit(r, fold, state));
    FilterMembers(list, Miss(r, fold, state));
    assert ieee in r.pending ==> ListInv(r, ieee);
  }

  lemma MatchKeepsInv(r: Registry, fold: string -> string, ieee: string, state: Fields)
    requires RegistryInv(r)
    ensures RegistryInv(MatchSection(r, fold, ieee, state).0) && Advances(r, MatchSection(r, fold, ieee, state).0)
    ensures Increasing(MatchSection(r, fold, ieee, state).1)
  {
    var (next, matched) := MatchSection(r, fold, ieee, state);
    if !r.closed {
      var list := ListOf(r.pending, ieee);
      assert ieee in r.pending ==> ListInv(r, ieee);
      FilterIncreasing(list, Hit(r, fold, state));
      FilterMembers(list, Hit(r, fold, state));
      assert Elements(matched) == set id | id in list && !Miss(r, fold, state)(id);
      SettleKeepsInv(r, ieee, Miss(r, fold, state), Elements(matched), Matched, next);
    }
  }

  lemma CloseKeepsInv(r: Registry)
    requires RegistryInv(r)
    ensures RegistryInv(CloseSection(r)) && Advances(r, CloseSection(r))
    ensures |CloseSection(r).entries| == |r.entries|
    ensures forall id | 0 <= id < |r.entries| ::
              CloseSection(r).entries[id] == if r.entries[id].status == Pending then Settled(r.entries[id], Dropped) else r.entries[id]
  {
    var next := CloseSection(r);
    SettleAllAt(r.entries, AllPending(r), Dropped);
    forall id | 0 <= id < |r.entries|
      ensures id in AllPending(r) <==> r.entries[id].status == Pending
    {
      assert EntryInv(r, id);
      if id in AllPending(r) {
        var k :| k in r.pending && id in r.pending[k];
        assert ListInv(r, k);
      }
    }
    forall id | 0 <= id < |next.entries| ensures EntryInv(next, id) { assert EntryInv(r, id); }
  }
}
