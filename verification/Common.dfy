/** Values shared by every part of the connector model. */
module Common {

  datatype Option<+T> = None | Some(value: T)

  datatype Result<+T, +E> = Ok(value: T) | Err(error: E)

  /**
   A decoded JSON document, as Go's encoding/json produces it in an interface{}:
   nil, bool, float64, string, []interface{} or map[string]interface{}. Numbers are
   reals: a JSON number is never NaN (section 6 of RFC 8259), so equality is reflexive.
   */
  datatype Json =
    | Null
    | Bool(b: bool)
    | Number(n: real)
    | String(s: string)
    | Array(items: seq<Json>)
    | Object(fields: map<string, Json>)

  /** One node of the `exposes` tree of a zigbee2mqtt device definition. */
  datatype Feature = Feature(
    kind: string,
    property: string,
    access: int,
    features: seq<Feature>,
    itemType: Option<Feature>,
    values: seq<Json>,
    valueMax: real,
    valueOn: Json)

  datatype Definition = Definition(vendor: string, model: string, exposes: seq<Feature>)

  datatype Device = Device(
    ieee: string,
    friendlyName: string,
    supported: bool,
    disabled: bool,
    interviewCompleted: bool,
    definition: Definition)

  datatype Attribute = Attribute(key: string, value: string)

  datatype Service = Service(localId: string, attributes: seq<Attribute>)

  datatype DeviceType = DeviceType(id: string, attributes: seq<Attribute>, services: seq<Service>)

  /** A subsequence: elements of `b`, in the order of `b`, each position used at most once. */
  predicate Subsequence<T(==)>(a: seq<T>, b: seq<T>) {
    || a == []
    || (&& b != []
        && (|| Subsequence(a, b[..|b| - 1])
            || (a[|a| - 1] == b[|b| - 1] && Subsequence(a[..|a| - 1], b[..|b| - 1]))))
  }

  lemma {:induction false} SubsequenceTransitive<T>(a: seq<T>, b: seq<T>, c: seq<T>)
    requires Subsequence(a, b) && Subsequence(b, c)
    ensures Subsequence(a, c)
    decreases |c|
  {
    if a != [] {
      var shorter := c[..|c| - 1];
      if Subsequence(b, shorter) {
        SubsequenceTransitive(a, b, shorter);
      } else if Subsequence(a, b[..|b| - 1]) {
        SubsequenceTransitive(a, b[..|b| - 1], shorter);
      } else {
        SubsequenceTransitive(a[..|a| - 1], b[..|b| - 1], shorter);
      }
    }
  }

  lemma {:induction false} SubsequenceSelf<T>(a: seq<T>)
    ensures Subsequence(a, a)
  {
    if a != [] {
      SubsequenceSelf(a[..|a| - 1]);
    }
  }

  /** The elements at which `keep` holds, in order. */
  function Filter<T>(xs: seq<T>, keep: T -> bool): seq<T> {
    if xs == [] then []
    else
      var rest := Filter(xs[..|xs| - 1], keep);
      if keep(xs[|xs| - 1]) then rest + [xs[|xs| - 1]] else rest
  }

  lemma {:induction false} FilterMembers<T(!new)>(xs: seq<T>, keep: T -> bool)
    ensures forall x :: x in Filter(xs, keep) <==> x in xs && keep(x)
  {
    if xs != [] {
      FilterMembers(xs[..|xs| - 1], keep);
      assert xs == xs[..|xs| - 1] + [xs[|xs| - 1]];
    }
  }

  lemma {:induction false} FilterAll<T>(xs: seq<T>, keep: T -> bool)
    requires forall i | 0 <= i < |xs| :: keep(xs[i])
    ensures Filter(xs, keep) == xs
  {
    if xs != [] {
      FilterAll(xs[..|xs| - 1], keep);
      assert xs == xs[..|xs| - 1] + [xs[|xs| - 1]];
    }
  }

  /** The index of the first element at which `p` holds, or |xs|. */
  function FirstIndex<T>(xs: seq<T>, p: T -> bool): (i: nat)
    ensures i <= |xs|
    ensures i < |xs| ==> p(xs[i])
    ensures forall j | 0 <= j < i :: !p(xs[j])
  {
    if xs == [] then 0
    else if p(xs[0]) then 0
    else
      var i := FirstIndex(xs[1..], p);
      assert forall j | 0 < j < i + 1 :: xs[j] == xs[1..][j - 1];
      i + 1
  }
}
