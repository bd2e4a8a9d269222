/**
 The register of the current device list (pkg/zigbee2mqtt/register.go) with its two indexes, and the
 scan of the same list by the connector (getExposes in pkg/connector/command.go).
 */
module DeviceRegister {
  import opened Common

  datatype Field = Ieee | FriendlyName

  function Key(d: Device, f: Field): string {
    match f
    case Ieee => d.ieee
    case FriendlyName => d.friendlyName
  }

  /** Linear search from the end. */
  function LastMatch(devices: seq<Device>, f: Field, key: string): Option<Device> {
    if devices == [] then None
    else if Key(devices[|devices| - 1], f) == key then Some(devices[|devices| - 1])
    else LastMatch(devices[..|devices| - 1], f, key)
  }

  /** Linear search from the start. */
  function FirstMatch(devices: seq<Device>, f: Field, key: string): Option<Device> {
    if devices == [] then None
    else if Key(devices[0], f) == key then Some(devices[0])
    else FirstMatch(devices[1..], f, key)
  }

  ghost predicate IsIndex(index: map<string, Device>, devices: seq<Device>, f: Field) {
    forall key: string :: LastMatch(devices, f, key) == if key in index then Some(index[key]) else None
  }

  /** Devices that share a key are the same device; unique keys are a special case. */
  ghost predicate OneDevicePerKey(devices: seq<Device>, f: Field) {
    forall i, j | 0 <= i < |devices| && 0 <= j < |devices| && Key(devices[i], f) == Key(devices[j], f) :: devices[i] == devices[j]
  }

  lemma {:induction false} LastMatchMeaning(devices: seq<Device>, f: Field, key: string)
    ensures LastMatch(devices, f, key).None? <==> forall i | 0 <= i < |devices| :: Key(devices[i], f) != key
    ensures LastMatch(devices, f, key).Some? ==>
              exists i :: 0 <= i < |devices| && Some(devices[i]) == LastMatch(devices, f, key) && Key(devices[i], f) == key
                          && forall j | i < j < |devices| :: Key(devices[j], f) != key
  {
    if devices != [] {
      var rest := devices[..|devices| - 1];
      LastMatchMeaning(rest, f, key);
      if Key(devices[|devices| - 1], f) != key && LastMatch(rest, f, key).Some? {
        var i :| 0 <= i < |rest| && Some(rest[i]) == LastMatch(rest, f, key) && Key(rest[i], f) == key
                 && forall j | i < j < |rest| :: Key(rest[j], f) != key;
        assert devices[i] == rest[i];
      }
    }
  }

  lemma {:induction false} FirstMatchMeaning(devices: seq<Device>, f: Field, key: string)
    ensures FirstMatch(devices, f, key).None? <==> forall i | 0 <= i < |devices| :: Key(devices[i], f) != key
    ensures FirstMatch(devices, f, key).Some? ==>
              exists i :: 0 <= i < |devices| && Some(devices[i]) == FirstMatch(devices, f, key) && Key(devices[i], f) == key
                          && forall j | 0 <= j < i :: Key(devices[j], f) != key
  {
    if devices != [] {
      var rest := devices[1..];
      FirstMatchMeaning(rest, f, key);
      if Key(devices[0], f) != key {
        assert forall j | 0 < j < |devices| :: devices[j] == rest[j - 1];
        if FirstMatch(rest, f, key).Some? {
          var i :| 0 <= i < |rest| && Some(rest[i]) == FirstMatch(rest, f, key) && Key(rest[i], f) == key
                   && forall j | 0 <= j < i :: Key(rest[j], f) != key;
          assert devices[i + 1] == rest[i];
        }
      }
    }
  }

  /** `i` is the first position with the key. */
  ghost predicate FirstAt(devices: seq<Device>, f: Field, key: string, i: int) {
    0 <= i < |devices| && Key(devices[i], f) == key && forall k | 0 <= k < i :: Key(devices[k], f) != key
  }

  /** `j` is the last position with the key. */
  ghost predicate LastAt(devices: seq<Device>, f: Field, key: string, j: int) {
    0 <= j < |devices| && Key(devices[j], f) == key && forall k | j < k < |devices| :: Key(devices[k], f) != key
  }

  /** Where the two searches end, if there is a device of the key; no other position is its first or its last. */
  lemma SearchEnds(devices: seq<Device>, f: Field, key: string) returns (i: int, j: int)
    ensures FirstMatch(devices, f, key).None? <==> LastMatch(devices, f, key).None?
    ensures FirstMatch(devices, f, key).None? ==> forall k :: !FirstAt(devices, f, key, k)
    ensures FirstMatch(devices, f, key).Some? ==>
              && FirstAt(devices, f, key, i) && LastAt(devices, f, key, j)
              && FirstMatch(devices, f, key) == Some(devices[i]) && LastMatch(devices, f, key) == Some(devices[j])
    ensures forall k | FirstAt(devices, f, key, k) :: k == i
    ensures forall k | LastAt(devices, f, key, k) :: k == j
  {
    FirstMatchMeaning(devices, f, key);
    LastMatchMeaning(devices, f, key);
    i, j := 0, 0;
    if FirstMatch(devices, f, key).Some? {
      i :| 0 <= i < |devices| && Some(devices[i]) == FirstMatch(devices, f, key) && Key(devices[i], f) == key
           && forall k | 0 <= k < i :: Key(devices[k], f) != key;
      j :| 0 <= j < |devices| && Some(devices[j]) == LastMatch(devices, f, key) && Key(devices[j], f) == key
           && forall k | j < k < |devices| :: Key(devices[k], f) != key;
    }
  }

  /** The scan of getExposes and the index find the same device iff the first and the last listed one are equal. */
  lemma ScanAgreesIff(devices: seq<Device>, f: Field, key: string)
    ensures FirstMatch(devices, f, key) == LastMatch(devices, f, key)
       <==> forall i, j | FirstAt(devices, f, key, i) && LastAt(devices, f, key, j) :: devices[i] == devices[j]
  {
    var i, j := SearchEnds(devices, f, key);
    if FirstMatch(devices, f, key).Some? {
      assert FirstAt(devices, f, key, i) && LastAt(devices, f, key, j);
    }
  }

  /** In particular they agree with one device per address. */
  lemma ScanAgreesWithIndex(devices: seq<Device>, f: Field, key: string)
    requires OneDevicePerKey(devices, f)
    ensures FirstMatch(devices, f, key) == LastMatch(devices, f, key)
  {
    ScanAgreesIff(devices, f, key);
  }

  function ExposesOf(d: Option<Device>): seq<Feature> {
    if d.Some? then d.value.definition.exposes else []
  }

  /**
   A `set` command is checked against the exposes of the indexed device iff the first and the last listed
   device of the address expose the same.
   */
  lemma ExposesAgreeIff(devices: seq<Device>, ieee: string)
    ensures ExposesOf(FirstMatch(devices, Ieee, ieee)) == ExposesOf(LastMatch(devices, Ieee, ieee))
       <==> forall i, j | FirstAt(devices, Ieee, ieee, i) && LastAt(devices, Ieee, ieee, j) ::
              devices[i].definition.exposes == devices[j].definition.exposes
  {
    var i, j := SearchEnds(devices, Ieee, ieee);
    if FirstMatch(devices, Ieee, ieee).Some? {
      assert FirstAt(devices, Ieee, ieee, i) && LastAt(devices, Ieee, ieee, j);
    }
  }

  /** Two devices of one address for which it is checked against the exposes of the one that is not indexed. */
  lemma ScanCanDisagree() returns (devices: seq<Device>)
    ensures FirstMatch(devices, Ieee, "0x1").Some? && LastMatch(devices, Ieee, "0x1").Some?
    ensures ExposesOf(FirstMatch(devices, Ieee, "0x1")) != ExposesOf(LastMatch(devices, Ieee, "0x1"))
  {
    var state := Feature("binary", "state", 7, [], None, [], 0.0, String("ON"));
    var brightness := state.(kind := "numeric", property := "brightness");
    var d := Device("0x1", "lamp", true, false, true, Definition("v", "m", [state]));
    devices := [d, d.(definition := Definition("v", "m", [state, brightness]))];
  }

  /** getExposes: no exposes if the list cannot be read or does not hold the device. */
  method GetExposes(list: Option<seq<Device>>, ieee: string) returns (exposes: seq<Feature>)
    ensures exposes == if list.Some? then ExposesOf(FirstMatch(list.value, Ieee, ieee)) else []
  {
    if list.None? {
      return [];
    }
    var devices := list.value;
    for i := 0 to |devices|
      invariant FirstMatch(devices, Ieee, ieee) == FirstMatch(devices[i..], Ieee, ieee)
    {
      assert devices[i..][1..] == devices[i + 1..];
      if devices[i].ieee == ieee {
        return devices[i].definition.exposes;
      }
    }
    exposes := [];
  }

  datatype LookupError = NotFound | DeadlineExceeded

  /**
   How waiting for the first Set ended: the register was already initialised when asked, the wait was
   cancelled (by the first Set, or by the caller), or the deadline passed first. RegisterWaits says when
   each of them happens.
   */
  datatype Wait = Ready | Canceled | Expired

  /** What a lookup answers once its wait has ended, given the list at that moment. */
  function LookupIn(list: seq<Device>, f: Field, key: string, wait: Wait): Result<Device, LookupError> {
    if wait.Expired? then Err(DeadlineExceeded)
    else
      var d := LastMatch(list, f, key);
      if d.Some? then Ok(d.value) else Err(NotFound)
  }

  function ListIn(list: seq<Device>, wait: Wait): Result<seq<Device>, LookupError> {
    if wait.Expired? then Err(DeadlineExceeded) else Ok(list)
  }

  class DeviceRegister {
    var list: seq<Device>
    var byIeee: map<string, Device>
    var byFriendlyName: map<string, Device>
    var init: bool
    /** The counter of the wait group: Go panics if it becomes negative. */
    var initWg: int
    ghost var calls: nat

    ghost predicate Valid()
      reads this
    {
      && IsIndex(byIeee, list, Ieee)
      && IsIndex(byFriendlyName, list, FriendlyName)
      && (init <==> calls > 0)
      && initWg == (if calls == 0 then 1 else 0)
      && (calls == 0 ==> list == [])
    }

    constructor ()
      ensures Valid() && list == [] && calls == 0
    {
      list := [];
      byIeee := map[];
      byFriendlyName := map[];
      init := false;
      initWg := 1;
      calls := 0;
    }

    /** True for the first call only, which alone releases the waiting callers. */
    method Set(devices: seq<Device>) returns (firstCall: bool)
      requires Valid()
      modifies this
      ensures Valid() && list == devices && calls == old(calls) + 1
      ensures firstCall <==> calls == 1
      ensures initWg == if firstCall then old(initWg) - 1 else old(initWg)
    {
      list := devices;
      byIeee := map[];
      byFriendlyName := map[];
      for i := 0 to |devices|
        invariant list == devices && calls == old(calls) && init == old(init) && initWg == old(initWg)
        invariant IsIndex(byIeee, devices[..i], Ieee)
        invariant IsIndex(byFriendlyName, devices[..i], FriendlyName)
      {
        var e := devices[i];
        assert devices[..i + 1][..i] == devices[..i];
        byIeee := byIeee[e.ieee := e];
        byFriendlyName := byFriendlyName[e.friendlyName := e];
      }
      assert devices[..|devices|] == devices;
      calls := calls + 1;
      firstCall := !init;
      if firstCall {
        init := true;
        initWg := initWg - 1;
      }
    }

    /** A wait that ends cancelled is no error, so before the first Set the answer is NotFound. */
    method GetByIeee(wait: Wait, ieee: string) returns (r: Result<Device, LookupError>)
      requires Valid() && (wait.Ready? ==> init)
      ensures r == LookupIn(list, Ieee, ieee, wait)
      ensures !wait.Expired? ==> (r.Ok? <==> exists d | d in list :: d.ieee == ieee)
      ensures r.Ok? ==> exists i :: 0 <= i < |list| && list[i] == r.value && list[i].ieee == ieee
                                    && forall j | i < j < |list| :: list[j].ieee != ieee
      ensures calls == 0 && !wait.Expired? ==> r == Err(NotFound)
    {
      if wait.Expired? {
        return Err(DeadlineExceeded);
      }
      LastMatchMeaning(list, Ieee, ieee);
      if ieee !in byIeee {
        return Err(NotFound);
      }
      r := Ok(byIeee[ieee]);
    }

    method GetByFriendlyName(wait: Wait, name: string) returns (r: Result<Device, LookupError>)
      requires Valid() && (wait.Ready? ==> init)
      ensures r == LookupIn(list, FriendlyName, name, wait)
      ensures !wait.Expired? ==> (r.Ok? <==> exists d | d in list :: d.friendlyName == name)
      ensures r.Ok? ==> exists i :: 0 <= i < |list| && list[i] == r.value && list[i].friendlyName == name
                                    && forall j | i < j < |list| :: list[j].friendlyName != name
      ensures calls == 0 && !wait.Expired? ==> r == Err(NotFound)
    {
      if wait.Expired? {
        return Err(DeadlineExceeded);
      }
      LastMatchMeaning(list, FriendlyName, name);
      if name !in byFriendlyName {
        return Err(NotFound);
      }
      r := Ok(byFriendlyName[name]);
    }

    /** Unlike the two lookups, the list of a register that was never set is empty and no error. */
    method List(wait: Wait) returns (r: Result<seq<Device>, LookupError>)
      requires Valid() && (wait.Ready? ==> init)
      ensures r == ListIn(list, wait)
      ensures calls == 0 && !wait.Expired? ==> r == Ok([])
    {
      r := if wait.Expired? then Err(DeadlineExceeded) else Ok(list);
    }
  }
}
