/**
 The parts of an `exposes` tree that its traversals look at: the bits of an access mask, and the nodes
 with the way to them.
 */
module FeatureTree {
  import opened Common

  const EVENT_ACCESS: nat := 1
  const SET_ACCESS: nat := 2
  const GET_ACCESS: nat := 4

  // ---------- access masks ----------

  /** Whether the access shares a bit with the mask; a negative number has its two's complement bits. */
  predicate HasAccess(access: int, mask: nat)
    decreases mask
  {
    mask != 0 && ((access % 2 == 1 && mask % 2 == 1) || HasAccess(access / 2, mask / 2))
  }

  /** The mask with the bits of both. */
  function Or(a: nat, b: nat): nat {
    if a == 0 then b
    else if b == 0 then a
    else 2 * Or(a / 2, b / 2) + if a % 2 == 1 || b % 2 == 1 then 1 else 0
  }

  lemma {:induction false} HasAccessOr(access: int, a: nat, b: nat)
    ensures HasAccess(access, Or(a, b)) <==> HasAccess(access, a) || HasAccess(access, b)
    decreases a + b
  {
    if a != 0 && b != 0 {
      HasAccessOr(access / 2, a / 2, b / 2);
      assert Or(a, b) / 2 == Or(a / 2, b / 2);
    }
  }

  /** The integer without its lowest `k` bits. */
  function Shifted(n: int, k: nat): int
    decreases k
  {
    if k == 0 then n else Shifted(n / 2, k - 1)
  }

  /** Bit `k`; with floor division this is the bit of the two's complement also for a negative number. */
  predicate Bit(n: int, k: nat) {
    Shifted(n, k) % 2 == 1
  }

  lemma {:induction false} NoBitInZero(k: nat)
    ensures !Bit(0, k)
  {
    if k > 0 {
      NoBitInZero(k - 1);
    }
  }

  /** Access and mask are compared bit by bit: some bit is set in both. */
  lemma {:induction false} HasAccessBits(access: int, mask: nat)
    ensures HasAccess(access, mask) <==> exists k: nat :: Bit(access, k) && Bit(mask, k)
    decreases mask
  {
    if mask == 0 {
      forall k: nat ensures !Bit(mask, k) { NoBitInZero(k); }
    } else {
      HasAccessBits(access / 2, mask / 2);
      if HasAccess(access / 2, mask / 2) {
        var k: nat :| Bit(access / 2, k) && Bit(mask / 2, k);
        assert Bit(access, k + 1) && Bit(mask, k + 1);
      }
      if access % 2 == 1 && mask % 2 == 1 {
        assert Bit(access, 0) && Bit(mask, 0);
      }
      if k: nat :| Bit(access, k) && Bit(mask, k) {
        if k > 0 {
          assert Bit(access / 2, k - 1) && Bit(mask / 2, k - 1);
        }
      }
    }
  }

  /** The three masks of zigbee2mqtt: 1 is published, 2 settable, 4 gettable. */
  lemma AccessBits(access: int)
    ensures HasAccess(access, 1) <==> access % 2 == 1
    ensures HasAccess(access, 2) <==> (access / 2) % 2 == 1
    ensures HasAccess(access, 4) <==> (access / 4) % 2 == 1
  {
    assert HasAccess(access, 2) <==> HasAccess(access / 2, 1);
    assert HasAccess(access, 4) <==> HasAccess(access / 2, 2);
    assert HasAccess(access / 2, 2) <==> HasAccess(access / 2 / 2, 1);
    assert access / 2 / 2 == access / 4;
  }

  // ---------- nodes ----------

  /** The node at a path of child positions. */
  function NodeAt(features: seq<Feature>, path: seq<nat>): Option<Feature>
    decreases path
  {
    if path == [] || path[0] >= |features| then None
    else if |path| == 1 then Some(features[path[0]])
    else NodeAt(features[path[0]].features, path[1..])
  }

  /** The node at a path that leads through property-less nodes only. */
  function OpenNodeAt(features: seq<Feature>, path: seq<nat>): Option<Feature>
    decreases path
  {
    if path == [] || path[0] >= |features| then None
    else if |path| == 1 then Some(features[path[0]])
    else if features[path[0]].property == "" then OpenNodeAt(features[path[0]].features, path[1..])
    else None
  }

  lemma NodeBelow(features: seq<Feature>, i: nat, path: seq<nat>)
    requires i < |features|
    ensures NodeAt(features, [i]) == Some(features[i]) && OpenNodeAt(features, [i]) == Some(features[i])
    ensures path != [] ==> NodeAt(features, [i] + path) == NodeAt(features[i].features, path)
    ensures path != [] && features[i].property == "" ==> OpenNodeAt(features, [i] + path) == OpenNodeAt(features[i].features, path)
  {
    assert ([i] + path)[1..] == path;
  }
}
