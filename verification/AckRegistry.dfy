/**
 The registry as the code keeps it: entries are objects compared by pointer, the pending
 lists live in a map, and every method is one critical section of the mutex
 (pkg/connector/ack.go). Each method is proved to be the section of AckSections on the
 abstract value `Abs()`.
 */
module AckRegistry {
  import opened Common
  import opened AckMatching
  import opened AckSections

  /** Never changed after Register, but compared by pointer. */
  class PendingAck {
    const ieee: string
    const target: Target
    const expected: Fields
    ghost const id: nat   // registration index

    constructor (ieee: string, target: Target, expected: Fields, ghost id: nat)
      ensures this.ieee == ieee && this.target == target && this.expected == expected && this.id == id
    {
      this.ieee, this.target, this.expected := ieee, target, expected;
      this.id := id;
    }
  }

  ghost function Ids(list: seq<PendingAck>): (r: seq<nat>)
    ensures |r| == |list| && forall i | 0 <= i < |list| :: r[i] == list[i].id
  {
    seq(|list|, i requires 0 <= i < |list| => list[i].id)
  }

  /** `list` without the first occurrence of `entry`. */
  ghost function WithoutFirst(list: seq<PendingAck>, entry: PendingAck): seq<PendingAck> {
    if list == [] then []
    else if list[0] == entry then list[1..]
    else [list[0]] + WithoutFirst(list[1..], entry)
  }

  lemma {:induction false} WithoutFirstAt(list: seq<PendingAck>, entry: PendingAck, i: nat)
    requires i < |list| && list[i] == entry && entry !in list[..i]
    ensures WithoutFirst(list, entry) == list[..i] + list[i + 1..]
  {
    if i > 0 {
      assert list[0] in list[..i];
      assert list[1..][..i - 1] == list[1..i];
      forall e | e in list[1..i] ensures e in list[..i] {}
      WithoutFirstAt(list[1..], entry, i - 1);
      assert [list[0]] + list[1..i] == list[..i];
      assert list[1..][i..] == list[i + 1..];
    }
  }

  ghost function IdSet(list: seq<PendingAck>): set<nat> {
    Elements(Ids(list))
  }

  ghost function IdLists(pending: map<string, seq<PendingAck>>): map<string, seq<nat>> {
    map k | k in pending :: Ids(pending[k])
  }

  lemma IdListsStore(pending: map<string, seq<PendingAck>>, k: string, list: seq<PendingAck>)
    ensures ListOf(IdLists(pending), k) == Ids(ListOf(pending, k))
    ensures IdLists(Store(pending, k, list)) == Store(IdLists(pending), k, Ids(list))
    ensures IdLists(pending[k := list]) == IdLists(pending)[k := Ids(list)]
  {
  }

  lemma IdListsAppend(pending: map<string, seq<PendingAck>>, k: string, e: PendingAck)
    ensures IdLists(pending[k := ListOf(pending, k) + [e]]) == IdLists(pending)[k := ListOf(IdLists(pending), k) + [e.id]]
  {
    IdListsStore(pending, k, ListOf(pending, k) + [e]);
    assert Ids(ListOf(pending, k) + [e]) == Ids(ListOf(pending, k)) + [e.id];
  }

  /** Comparing pointers and comparing registration indexes find the same entry, at index `i` if it is there. */
  lemma RemoveAbs(pending: map<string, seq<PendingAck>>, closed: bool, entries: seq<Entry>, entry: PendingAck, i: nat)
    requires entry.id < |entries| && entries[entry.id].ieee == entry.ieee
    requires forall e | e in ListOf(pending, entry.ieee) :: e.id == entry.id ==> e == entry
    requires i <= |ListOf(pending, entry.ieee)| && entry !in ListOf(pending, entry.ieee)[..i]
    requires i < |ListOf(pending, entry.ieee)| ==> ListOf(pending, entry.ieee)[i] == entry
    ensures var list := ListOf(pending, entry.ieee);
      RemoveSection(Registry(IdLists(pending), closed, entries), entry.id)
      == if i == |list| then (Registry(IdLists(pending), closed, entries), false)
         else (Registry(IdLists(Store(pending, entry.ieee, list[..i] + list[i + 1..])), closed, entries), true)
  {
    var list := ListOf(pending, entry.ieee);
    forall x | 0 <= x < i ensures Ids(list)[x] != entry.id {
      assert list[x] in list && list[x] in list[..i];
    }
    assert FirstIndex(Ids(list), e => e == entry.id) == i;
    IdListsStore(pending, entry.ieee, list);
    if i < |list| {
      var rest := list[..i] + list[i + 1..];
      assert Ids(rest) == Ids(list)[..i] + Ids(list)[i + 1..];
      IdListsStore(pending, entry.ieee, rest);
    }
  }

  class Acks {
    const fold: string -> string
    var pending: map<string, seq<PendingAck>>
    var closed: bool
    var timers: map<PendingAck, Timer>  // the runtime timer of every entry ever registered
    ghost var entries: seq<Entry>       // their history
    ghost var registered: seq<PendingAck>

    ghost function Abs(): Registry
      reads this
    {
      Registry(IdLists(pending), closed, entries)
    }

    /** The objects and the history describe the same entries. */
    ghost predicate Linked()
      reads this
    {
      && |registered| == |entries|
      && (forall e | e in timers :: Describes(e, timers[e], entries, registered))
      && (forall k | k in pending :: Listed(pending[k], k, timers.Keys))
    }

    ghost predicate Valid()
      reads this
    {
      Linked() && RegistryInv(Abs())
    }

    constructor (fold: string -> string)
      ensures Valid() && this.fold == fold && timers == map[] && Abs() == EMPTY
    {
      this.fold := fold;
      pending, closed, timers, entries, registered := map[], false, map[], [], [];
    }

    method Register(ieee: string, target: Target, expected: Fields) returns (entry: PendingAck?)
      requires Valid()
      modifies this
      ensures Valid()
      ensures Abs() == RegisterSection(old(Abs()), ieee, target, expected).0
      ensures entry == null <==> RegisterSection(old(Abs()), ieee, target, expected).1.None?
      ensures entry == null ==> timers == old(timers)
      ensures entry != null ==> fresh(entry) && entry in timers && timers.Keys == old(timers.Keys) + {entry}
      ensures entry != null ==> Some(entry.id) == RegisterSection(old(Abs()), ieee, target, expected).1
    {
      RegisterKeepsInv(Abs(), ieee, target, expected);
      if closed {
        return null;
      }
      ghost var ghostId: nat := |entries|;
      entry := new PendingAck(ieee, target, expected, ghostId);
      Append(entry);
    }

    /** The new entry gets its timer and joins its device's list. */
    method Append(added: PendingAck)
      requires Linked() && added !in timers && added.id == |entries|
      modifies this`pending, this`timers, this`registered, this`entries
      ensures Linked() && timers.Keys == old(timers.Keys) + {added}
      ensures IdLists(pending) == IdLists(old(pending))[added.ieee := ListOf(IdLists(old(pending)), added.ieee) + [added.id]]
      ensures entries == old(entries) + [Entry(added.ieee, added.target, added.expected, Pending, Armed)]
    {
      IdListsAppend(pending, added.ieee, added);
      timers := timers[added := Armed];
      pending := pending[added.ieee := ListOf(pending, added.ieee) + [added]];
      registered := registered + [added];
      entries := entries + [Entry(added.ieee, added.target, added.expected, Pending, Armed)];
      forall k | k in pending ensures Listed(pending[k], k, timers.Keys) {
        assert k in old(pending) ==> Listed(old(pending)[k], k, old(timers.Keys));
      }
    }

    /** removeLocked: the caller holds the mutex and settles the entry's history. */
    method RemoveLocked(entry: PendingAck) returns (removed: bool)
      requires Linked() && entry in timers
      modifies this`pending
      ensures Linked()
      ensures removed == (entry in ListOf(old(pending), entry.ieee))
      ensures pending == if removed then Store(old(pending), entry.ieee, WithoutFirst(ListOf(old(pending), entry.ieee), entry))
                         else old(pending)
      ensures (Abs(), removed) == RemoveSection(old(Abs()), entry.id)
    {
      var list := ListOf(pending, entry.ieee);
      assert Describes(entry, timers[entry], entries, registered);
      assert entry.ieee in pending ==> Listed(pending[entry.ieee], entry.ieee, timers.Keys);
      for i := 0 to |list|
        invariant entry !in list[..i]
      {
        if list[i] == entry {
          var rest := list[..i] + list[i + 1..];
          WithoutFirstAt(list, entry, i);
          RemoveAbs(pending, closed, entries, entry, i);
          if |rest| == 0 {
            pending := pending - {entry.ieee};
          } else {
            pending := pending[entry.ieee := rest];
          }
          return true;
        }
      }
      RemoveAbs(pending, closed, entries, entry, |list|);
      return false;
    }

    /** The timer of the entry stops, and the caller records why. */
    method StopTimer(entry: PendingAck, ghost status: Status)
      requires Linked() && entry in timers
      modifies this`entries, this`timers
      ensures Linked() && timers.Keys == old(timers.Keys)
      ensures entry.id < |old(entries)| && entries == old(entries)[entry.id := Settled(old(entries)[entry.id], status)]
    {
      assert Describes(entry, timers[entry], entries, registered);
      timers := timers[entry := Stop(timers[entry])];
      entries := entries[entry.id := Settled(entries[entry.id], status)];
      Redescribe(entry, old(timers), old(entries));
    }

    /** Updating one entry and its own history keeps the two descriptions in step. */
    lemma Redescribe(entry: PendingAck, timers0: map<PendingAck, Timer>, entries0: seq<Entry>)
      requires entry in timers0 && entry in timers && timers == timers0[entry := timers[entry]]
      requires forall e | e in timers0 :: Describes(e, timers0[e], entries0, registered)
      requires entry.id < |entries| == |entries0| && entries == entries0[entry.id := entries[entry.id]]
      requires Describes(entry, timers[entry], entries, registered)
      ensures timers.Keys == timers0.Keys
      ensures forall e | e in timers :: Describes(e, timers[e], entries, registered)
    {
      forall e | e in timers ensures Describes(e, timers[e], entries, registered) {
        assert Describes(e, timers0[e], entries0, registered);
      }
    }

    /** The closure returned by Register. */
    method Cancel(entry: PendingAck) returns (removed: bool)
      requires Valid() && entry in timers
      modifies this`pending, this`entries, this`timers
      ensures Valid() && timers.Keys == old(timers.Keys)
      ensures (Abs(), removed) == CancelSection(old(Abs()), entry.id)
    {
      assert Describes(entry, timers[entry], entries, registered);
      CancelKeepsInv(Abs(), entry.id);
      removed := RemoveLocked(entry);
      if removed {
        StopTimer(entry, Cancelled);
      }
    }

    /** The runtime starts the expire call of an armed timer. */
    method TimerFires(entry: PendingAck)
      requires Valid() && entry in timers && timers[entry] == Armed
      modifies this`entries, this`timers
      ensures Valid() && timers.Keys == old(timers.Keys)
      ensures Abs() == FireTimer(old(Abs()), entry.id)
    {
      assert Describes(entry, timers[entry], entries, registered);
      FireKeepsInv(Abs(), entry.id);
      timers := timers[entry := Firing];
      entries := entries[entry.id := entries[entry.id].(timer := Firing)];
      Redescribe(entry, old(timers), old(entries));
    }

    /** expire: the caller sends the timeout error iff `removed`. */
    method Expire(entry: PendingAck) returns (removed: bool)
      requires Valid() && entry in timers && timers[entry] == Firing
      modifies this`pending, this`entries, this`timers
      ensures Valid() && timers.Keys == old(timers.Keys)
      ensures (Abs(), removed) == ExpireSection(old(Abs()), entry.id)
    {
      assert Describes(entry, timers[entry], entries, registered);
      ExpireKeepsInv(Abs(), entry.id);
      removed := RemoveLocked(entry);
      timers := timers[entry := Idle];
      entries := entries[entry.id := entries[entry.id].(timer := Idle, status := if removed then Expired else entries[entry.id].status)];
      Redescribe(entry, old(timers), old(entries));
    }

    /** close */
    method Close()
      requires Valid()
      modifies this
      ensures Valid() && timers.Keys == old(timers.Keys)
      ensures Abs() == CloseSection(old(Abs()))
    {
      CloseKeepsInv(Abs());
      assert IdLists(pending).Keys == pending.Keys;
      closed := true;
      StopAll();
      pending := map[];
      assert Abs() == CloseSection(old(Abs()));
    }

    /** The loops of close, over the lists in any order. */
    method StopAll()
      requires Linked()
      modifies this`entries, this`timers
      ensures Linked() && timers.Keys == old(timers.Keys)
      ensures entries == SettleAll(old(entries), IdsUnder(IdLists(pending), pending.Keys), Dropped)
    {
      var keys := pending.Keys;
      SettleNone(entries, Dropped);
      assert pending.Keys - keys == {};
      assert IdsUnder(IdLists(pending), {}) == {};
      while keys != {}
        invariant Linked() && timers.Keys == old(timers.Keys)
        invariant keys <= pending.Keys
        invariant entries == SettleAll(old(entries), IdsUnder(IdLists(pending), pending.Keys - keys), Dropped)
      {
        var key :| key in keys;
        IdsUnderMore(pending, pending.Keys - keys, key);
        SettleAllTwice(old(entries), IdsUnder(IdLists(pending), pending.Keys - keys), IdSet(pending[key]), Dropped);
        assert pending.Keys - (keys - {key}) == (pending.Keys - keys) + {key};
        assert Listed(pending[key], key, timers.Keys);
        forall e | e in pending[key] ensures e.id < |entries| { assert Describes(e, timers[e], entries, registered); }
        keys := keys - {key};
        StopTimers(pending[key], Dropped);
      }
      assert pending.Keys - keys == pending.Keys;
    }

    /** The inner loop of close. */
    method StopTimers(list: seq<PendingAck>, ghost status: Status)
      requires Linked() && forall e | e in list :: e in timers && e.id < |entries|
      modifies this`entries, this`timers
      ensures Linked() && timers.Keys == old(timers.Keys)
      ensures entries == SettleAll(old(entries), IdSet(list), status)
    {
      for i := 0 to |list|
        invariant Linked() && timers.Keys == old(timers.Keys)
        invariant entries == Stopped(old(entries), list, status, i)
      {
        assert list[i] in list;
        StopTimer(list[i], status);
      }
      StoppedMeaning(old(entries), list, status, |list|);
      assert list[..|list|] == list;
    }

    method HasPending(ieee: string) returns (r: bool)
      ensures r == AckSections.HasPending(Abs(), ieee)
    {
      r := |ListOf(pending, ieee)| > 0;
    }

    /** One iteration of the match loop; a matching entry is still in its device's list. */
    method MatchOne(entry: PendingAck, state: Fields) returns (hit: bool)
      requires Linked() && entry in timers
      requires Matches(fold, entry.expected, state) ==> entry in ListOf(pending, entry.ieee)
      modifies this`pending, this`entries, this`timers
      ensures Linked() && timers.Keys == old(timers.Keys)
      ensures hit == Matches(fold, entry.expected, state)
      ensures hit ==> pending == Store(old(pending), entry.ieee, WithoutFirst(ListOf(old(pending), entry.ieee), entry))
      ensures hit ==> entry.id < |old(entries)| && entries == old(entries)[entry.id := Settled(old(entries)[entry.id], Matched)]
      ensures !hit ==> pending == old(pending) && entries == old(entries)
    {
      hit := AckMatches(fold, entry.expected, state);
      if hit {
        var removed := RemoveLocked(entry);
        if removed {
          StopTimer(entry, Matched);
        }
      }
    }

    /**
     The second critical section of Observe. The loop runs over a snapshot while
     RemoveLocked rebuilds the live list.
     */
    method MatchPending(ieee: string, state: Fields) returns (matched: seq<PendingAck>)
      requires Valid()
      modifies this`pending, this`entries, this`timers
      ensures Valid() && timers.Keys == old(timers.Keys)
      ensures (Abs(), Ids(matched)) == MatchSection(old(Abs()), fold, ieee, state)
      ensures forall e | e in matched :: e in timers && e.ieee == ieee
    {
      if closed {
        return [];
      }
      SnapshotFacts(ieee);
      ghost var next, ids := ScanIsMatchSection(ieee, state);
      matched := ScanList(ListOf(pending, ieee), ieee, state, next, ids);
    }

    /** The scan of the device's list ends in the registry `next`, with the entries `ids` collected. */
    method ScanList(snapshot: seq<PendingAck>, ieee: string, state: Fields, ghost next: Registry, ghost ids: seq<nat>)
      returns (matched: seq<PendingAck>)
      requires Linked() && pending == Store(pending, ieee, snapshot)
      requires forall e | e in snapshot :: e in timers && e.ieee == ieee && e.id < |entries|
      requires var scan := Scanned(pending, entries, ieee, snapshot, Hits(snapshot, fold, state), |snapshot|);
        && (forall e | e in scan.matched :: e in snapshot)
        && next == Registry(IdLists(scan.pending), closed, scan.entries) && ids == Ids(scan.matched)
      modifies this`pending, this`entries, this`timers
      ensures Linked() && timers.Keys == old(timers.Keys)
      ensures Abs() == next && Ids(matched) == ids
      ensures forall e | e in matched :: e in snapshot
    {
      ghost var hits := Hits(snapshot, fold, state);
      matched := ScanSnapshot(snapshot, ieee, state, hits);
    }

    /** The whole scan, in closed form, is the match section on the abstract value. */
    lemma ScanIsMatchSection(ieee: string, state: Fields) returns (next: Registry, ids: seq<nat>)
      requires Valid() && !closed
      ensures (next, ids) == MatchSection(Abs(), fold, ieee, state) && RegistryInv(next)
      ensures var snapshot := ListOf(pending, ieee);
        var scan := Scanned(pending, entries, ieee, snapshot, Hits(snapshot, fold, state), |snapshot|);
        && (forall e | e in scan.matched :: e in snapshot)
        && next == Registry(IdLists(scan.pending), false, scan.entries) && ids == Ids(scan.matched)
    {
      MatchKeepsInv(Abs(), fold, ieee, state);
      SnapshotFacts(ieee);
      MatchedAbs(pending, entries, ieee, fold, state);
      var snapshot := ListOf(pending, ieee);
      var hits := Hits(snapshot, fold, state);
      PartMembers(snapshot, hits, true, |snapshot|);
      ScannedMeaning(pending, entries, ieee, snapshot, hits, |snapshot|);
      assert Live(snapshot, hits, |snapshot|) == Part(snapshot, hits, false, |snapshot|);
      var result := MatchSection(Abs(), fold, ieee, state);
      next, ids := result.0, result.1;
    }

    method ScanSnapshot(snapshot: seq<PendingAck>, ieee: string, state: Fields, ghost hits: set<PendingAck>)
      returns (matched: seq<PendingAck>)
      requires Linked()
      requires pending == Store(pending, ieee, snapshot)
      requires forall i | 0 <= i < |snapshot| :: snapshot[i] in timers && snapshot[i].ieee == ieee
      requires forall i | 0 <= i < |snapshot| :: snapshot[i] in hits <==> Matches(fold, snapshot[i].expected, state)
      requires forall e | e in hits :: e.id < |entries|
      modifies this`pending, this`entries, this`timers
      ensures Linked() && timers.Keys == old(timers.Keys)
      ensures Scan(pending, entries, matched) == Scanned(old(pending), old(entries), ieee, snapshot, hits, |snapshot|)
    {
      matched := [];
      for i := 0 to |snapshot|
        invariant Linked() && timers.Keys == old(timers.Keys)
        invariant Scan(pending, entries, matched) == Scanned(old(pending), old(entries), ieee, snapshot, hits, i)
      {
        ScanReady(old(pending), old(entries), ieee, snapshot, hits, i);
        ghost var scan := Scan(pending, entries, matched);
        var hit := MatchOne(snapshot[i], state);
        if hit {
          matched := matched + [snapshot[i]];
        }
        assert Scan(pending, entries, matched) == ScanNext(scan, ieee, snapshot[i], hits);
      }
    }

    /** Observe, when no other goroutine enters between its two critical sections. */
    method Observe(parse: string -> Option<Json>, ieee: string, payload: string) returns (matched: seq<PendingAck>)
      requires Valid()
      modifies this`pending, this`entries, this`timers
      ensures Valid() && timers.Keys == old(timers.Keys)
      ensures (Abs(), Ids(matched)) == ObserveAlone(old(Abs()), fold, parse, ieee, payload)
      ensures forall e | e in matched :: e in timers && e.ieee == ieee
    {
      var waiting := HasPending(ieee);
      if !waiting {
        return [];
      }
      var state := ParseFields(parse, payload);
      if state.None? {
        return [];
      }
      matched := MatchPending(ieee, state.value);
    }

    /** The entries of one device are registered, and their objects and history agree. */
    lemma SnapshotFacts(ieee: string)
      requires Valid()
      ensures forall e | e in ListOf(pending, ieee) :: e in timers && e.ieee == ieee && e.id < |entries| && e.expected == entries[e.id].expected
      ensures pending == Store(pending, ieee, ListOf(pending, ieee))
    {
      if ieee in pending {
        assert Listed(pending[ieee], ieee, timers.Keys) && ListInv(Abs(), ieee);
        assert Abs().pending[ieee] == Ids(pending[ieee]);
        forall e | e in pending[ieee]
          ensures e in timers && e.id < |entries| && e.expected == entries[e.id].expected
        {
          assert Describes(e, timers[e], entries, registered);
        }
      }
    }
  }

  /** The entries of a list that `state` satisfies. */
  ghost function Hits(list: seq<PendingAck>, fold: string -> string, state: Fields): set<PendingAck> {
    set e | e in list && Matches(fold, e.expected, state)
  }

  /** The entries among the first `i` that are (inside) or are not in `hits`, in order. */
  ghost function Part(list: seq<PendingAck>, hits: set<PendingAck>, inside: bool, i: nat): seq<PendingAck>
    requires i <= |list|
  {
    if i == 0 then []
    else if (list[i - 1] in hits) == inside then Part(list, hits, inside, i - 1) + [list[i - 1]]
    else Part(list, hits, inside, i - 1)
  }

  /** The live list after `i` elements of the snapshot were tried. */
  ghost function Live(snapshot: seq<PendingAck>, hits: set<PendingAck>, i: nat): seq<PendingAck>
    requires i <= |snapshot|
  {
    Part(snapshot, hits, false, i) + snapshot[i..]
  }

  lemma {:induction false} PartMembers(list: seq<PendingAck>, hits: set<PendingAck>, inside: bool, i: nat)
    requires i <= |list|
    ensures forall e | e in Part(list, hits, inside, i) :: e in list && ((e in hits) == inside)
  {
    if i > 0 {
      PartMembers(list, hits, inside, i - 1);
    }
  }

  lemma RemoveMiddle(kept: seq<PendingAck>, entry: PendingAck, tail: seq<PendingAck>)
    requires entry !in kept
    ensures WithoutFirst(kept + [entry] + tail, entry) == kept + tail
  {
    var live := kept + [entry] + tail;
    assert live[..|kept|] == kept && live[|kept| + 1..] == tail;
    WithoutFirstAt(live, entry, |kept|);
  }

  datatype Scan = Scan(pending: map<string, seq<PendingAck>>, entries: seq<Entry>, matched: seq<PendingAck>)

  /** The live lists, the history and the collected entries after `i` iterations over the snapshot. */
  ghost function Scanned(pending: map<string, seq<PendingAck>>, entries: seq<Entry>, ieee: string,
                         snapshot: seq<PendingAck>, hits: set<PendingAck>, i: nat): (r: Scan)
    requires i <= |snapshot|
    ensures |r.entries| == |entries|
  {
    if i == 0 then Scan(pending, entries, [])
    else
      ScanNext(Scanned(pending, entries, ieee, snapshot, hits, i - 1), ieee, snapshot[i - 1], hits)
  }

  ghost function ScanNext(scan: Scan, ieee: string, e: PendingAck, hits: set<PendingAck>): (r: Scan)
    ensures |r.entries| == |scan.entries|
  {
    if e in hits && e.id < |scan.entries| then
      Scan(Store(scan.pending, ieee, WithoutFirst(ListOf(scan.pending, ieee), e)),
           scan.entries[e.id := Settled(scan.entries[e.id], Matched)],
           scan.matched + [e])
    else scan
  }

  /** The closed form of the scan. */
  lemma {:induction false} ScannedMeaning(pending: map<string, seq<PendingAck>>, entries: seq<Entry>, ieee: string,
                                          snapshot: seq<PendingAck>, hits: set<PendingAck>, i: nat)
    requires i <= |snapshot| && pending == Store(pending, ieee, snapshot)
    requires forall e | e in hits :: e.id < |entries|
    ensures Scanned(pending, entries, ieee, snapshot, hits, i)
         == Scan(Store(pending, ieee, Live(snapshot, hits, i)), SettleAll(entries, IdSet(Part(snapshot, hits, true, i)), Matched),
                 Part(snapshot, hits, true, i))
  {
    if i == 0 {
      SettleNone(entries, Matched);
      assert Live(snapshot, hits, 0) == snapshot;
    } else {
      ScannedMeaning(pending, entries, ieee, snapshot, hits, i - 1);
      var e := snapshot[i - 1];
      var kept := Part(snapshot, hits, false, i - 1);
      assert Live(snapshot, hits, i - 1) == kept + [e] + snapshot[i..];
      StoreTwice(pending, ieee, Live(snapshot, hits, i - 1), kept + snapshot[i..]);
      if e in hits {
        PartMembers(snapshot, hits, false, i - 1);
        RemoveMiddle(kept, e, snapshot[i..]);
        SettleOneMore(entries, Part(snapshot, hits, true, i - 1), e, Matched);
      }
    }
  }

  lemma ScanReady(pending: map<string, seq<PendingAck>>, entries: seq<Entry>, ieee: string,
                  snapshot: seq<PendingAck>, hits: set<PendingAck>, i: nat)
    requires i < |snapshot| && pending == Store(pending, ieee, snapshot)
    requires forall e | e in hits :: e.id < |entries|
    ensures snapshot[i] in ListOf(Scanned(pending, entries, ieee, snapshot, hits, i).pending, ieee)
  {
    ScannedMeaning(pending, entries, ieee, snapshot, hits, i);
    StoreTwice(pending, ieee, Live(snapshot, hits, i), []);
    assert Live(snapshot, hits, i)[|Part(snapshot, hits, false, i)|] == snapshot[i];
  }

  lemma StoreTwice(pending: map<string, seq<PendingAck>>, k: string, a: seq<PendingAck>, b: seq<PendingAck>)
    ensures Store(Store(pending, k, a), k, b) == Store(pending, k, b)
    ensures ListOf(Store(pending, k, a), k) == a
  {
  }

  lemma SettleNone(entries: seq<Entry>, status: Status)
    ensures SettleAll(entries, IdSet([]), status) == SettleAll(entries, {}, status) == entries
  {
    SettleAllAt(entries, IdSet([]), status);
    SettleAllAt(entries, {}, status);
  }

  ghost function Stopped(entries: seq<Entry>, list: seq<PendingAck>, status: Status, i: nat): (r: seq<Entry>)
    requires i <= |list|
    ensures |r| == |entries|
  {
    if i == 0 then entries
    else
      var before := Stopped(entries, list, status, i - 1);
      var id := list[i - 1].id;
      if id < |before| then before[id := Settled(before[id], status)] else before
  }

  lemma {:induction false} StoppedMeaning(entries: seq<Entry>, list: seq<PendingAck>, status: Status, i: nat)
    requires i <= |list| && forall e | e in list :: e.id < |entries|
    ensures Stopped(entries, list, status, i) == SettleAll(entries, IdSet(list[..i]), status)
  {
    if i == 0 {
      SettleNone(entries, status);
    } else {
      StoppedMeaning(entries, list, status, i - 1);
      assert list[i - 1] in list;
      SettleOneMore(entries, list[..i - 1], list[i - 1], status);
      assert list[..i] == list[..i - 1] + [list[i - 1]];
    }
  }

  lemma SettleOneMore(entries: seq<Entry>, collected: seq<PendingAck>, e: PendingAck, status: Status)
    requires e.id < |entries|
    ensures e.id < |SettleAll(entries, IdSet(collected), status)|
    ensures SettleAll(entries, IdSet(collected), status)[e.id := Settled(SettleAll(entries, IdSet(collected), status)[e.id], status)]
         == SettleAll(entries, IdSet(collected + [e]), status)
  {
    assert Ids(collected + [e]) == Ids(collected) + [e.id];
    SettleAllAt(entries, IdSet(collected), status);
    SettleAllAt(entries, IdSet(collected + [e]), status);
  }

  lemma IdsUnderMore(pending: map<string, seq<PendingAck>>, keys: set<string>, key: string)
    requires key in pending
    ensures IdsUnder(IdLists(pending), keys + {key}) == IdsUnder(IdLists(pending), keys) + IdSet(pending[key])
  {
    forall id | id in IdSet(pending[key]) ensures id in IdsUnder(IdLists(pending), keys + {key}) {
      assert IdLists(pending)[key] == Ids(pending[key]);
    }
  }

  /** The scanned registry is the match section's result. */
  lemma MatchedAbs(pending: map<string, seq<PendingAck>>, entries: seq<Entry>, ieee: string, fold: string -> string, state: Fields)
    requires forall e | e in ListOf(pending, ieee) :: e.id < |entries| && e.expected == entries[e.id].expected
    ensures var list := ListOf(pending, ieee);
      var hits := Hits(list, fold, state);
      var matched := Part(list, hits, true, |list|);
      (Registry(IdLists(Store(pending, ieee, Part(list, hits, false, |list|))), false, SettleAll(entries, IdSet(matched), Matched)), Ids(matched))
      == MatchSection(Registry(IdLists(pending), false, entries), fold, ieee, state)
  {
    var list := ListOf(pending, ieee);
    var hits := Hits(list, fold, state);
    var r := Registry(IdLists(pending), false, entries);
    IdListsStore(pending, ieee, Part(list, hits, false, |list|));
    PartIds(list, hits, true, Hit(r, fold, state), |list|);
    PartIds(list, hits, false, Miss(r, fold, state), |list|);
    assert Ids(list)[..|list|] == Ids(list);
  }

  lemma {:induction false} PartIds(list: seq<PendingAck>, hits: set<PendingAck>, inside: bool, keepId: nat -> bool, i: nat)
    requires i <= |list|
    requires forall e | e in list :: ((e in hits) == inside) == keepId(e.id)
    ensures Ids(Part(list, hits, inside, i)) == Filter(Ids(list)[..i], keepId)
  {
    if i > 0 {
      PartIds(list, hits, inside, keepId, i - 1);
      assert Ids(list)[..i][..i - 1] == Ids(list)[..i - 1];
      assert list[i - 1] in list;
    }
  }

  ghost predicate Describes(o: PendingAck, timer: Timer, entries: seq<Entry>, registered: seq<PendingAck>) {
    && o.id < |entries| == |registered|
    && registered[o.id] == o
    && var e := entries[o.id];
       o.ieee == e.ieee && o.target == e.target && o.expected == e.expected && timer == e.timer
  }

  ghost predicate Listed(list: seq<PendingAck>, ieee: string, registered: set<PendingAck>) {
    forall e | e in list :: e.ieee == ieee && e in registered
  }
}
