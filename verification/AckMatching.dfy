/**
 What a `set` command waits for, and when a published state satisfies it
 (pkg/connector/ack.go: ackExpectation, collectPublishedProperties, ackMatches, ackValueMatches).

 Library semantics enter as parameters: `fold` is the normal form of strings.EqualFold
 (two strings are equal under folding iff their normal forms are equal) and `parse` is
 json.Unmarshal into an interface{}.
 */
module AckMatching {
  import opened Common
  import opened FeatureTree

  const TRANSITION_KEY := "transition"
  const TOGGLE := "toggle"

  type Fields = map<string, Json>

  predicate IsContainer(v: Json) {
    v.Array? || v.Object?
  }

  /** An expectation of the text "toggle", in any case, is met by every value. */
  predicate IsToggle(fold: string -> string, v: Json) {
    v.String? && fold(v.s) == fold(TOGGLE)
  }

  /** ackValueMatches, branch by branch */
  predicate ValueMatches(fold: string -> string, expected: Json, got: Json) {
    match expected
    case Object(_) => true
    case Array(_) => true
    case String(s) =>
      if fold(s) == fold(TOGGLE) then true
      else (
        match got
        case String(g) => fold(s) == fold(g)
        case Object(_) => true
        case Array(_) => true
        case _ => false)
    case Number(n) => (
      match got
      case Number(g) => n == g
      case Object(_) => true
      case Array(_) => true
      case _ => false)
    case Bool(b) => (
      match got
      case Bool(g) => b == g
      case Object(_) => true
      case Array(_) => true
      case _ => false)
    case Null => got.Null? || IsContainer(got)
  }

  /** The relation the documentation describes: scalars of one kind agree, containers agree with everything. */
  predicate Agree(fold: string -> string, a: Json, b: Json) {
    || IsContainer(a)
    || IsContainer(b)
    || a == b
    || (a.String? && b.String? && fold(a.s) == fold(b.s))
  }

  /** A value matches iff it agrees or the expectation is "toggle". */
  lemma ValueMatchesMeaning(fold: string -> string, expected: Json, got: Json)
    ensures ValueMatches(fold, expected, got) <==> IsToggle(fold, expected) || Agree(fold, expected, got)
  {
    match expected
    case Object(_) =>
    case Array(_) =>
    case String(_) =>
    case Number(_) =>
    case Bool(_) =>
    case Null =>
  }

  /**
   Matching is symmetric except for "toggle": the two directions differ exactly when one
   side is "toggle", the other is not, and they do not agree.
   */
  lemma ValueMatchesSymmetry(fold: string -> string, a: Json, b: Json)
    ensures ValueMatches(fold, a, b) != ValueMatches(fold, b, a)
       <==> IsToggle(fold, a) != IsToggle(fold, b) && !Agree(fold, a, b)
  {
    ValueMatchesMeaning(fold, a, b);
    ValueMatchesMeaning(fold, b, a);
  }

  /**
   The documented comparison, kind by kind: a container on either side agrees, two strings agree up to
   case, two numbers, booleans or nulls if they are equal, and scalars of different kinds never.
   */
  lemma AgreeMeaning(fold: string -> string, a: Json, b: Json)
    ensures a.Array? || a.Object? || b.Array? || b.Object? ==> Agree(fold, a, b)
    ensures a.String? && b.String? ==> (Agree(fold, a, b) <==> fold(a.s) == fold(b.s))
    ensures a.Number? && b.Number? ==> (Agree(fold, a, b) <==> a.n == b.n)
    ensures a.Bool? && b.Bool? ==> (Agree(fold, a, b) <==> a.b == b.b)
    ensures a.Null? && b.Null? ==> Agree(fold, a, b)
    ensures a.String? && (b.Number? || b.Bool? || b.Null?) ==> !Agree(fold, a, b)
    ensures a.Number? && (b.String? || b.Bool? || b.Null?) ==> !Agree(fold, a, b)
    ensures a.Bool? && (b.String? || b.Number? || b.Null?) ==> !Agree(fold, a, b)
    ensures a.Null? && (b.String? || b.Number? || b.Bool?) ==> !Agree(fold, a, b)
    ensures IsToggle(fold, a) <==> a.String? && fold(a.s) == fold("toggle")
  {
  }

  /** ackMatches; the loop over the expected map is a check of every key, in any order. */
  predicate Matches(fold: string -> string, expected: Fields, state: Fields) {
    forall key | key in expected ::
      key in state && ValueMatches(fold, expected[key], state[key])
  }

  /** A state satisfies an expectation iff it has every expected key with a value that agrees or is expected to toggle. */
  lemma MatchesMeaning(fold: string -> string, expected: Fields, state: Fields)
    ensures Matches(fold, expected, state)
       <==> forall key | key in expected :: key in state && (IsToggle(fold, expected[key]) || Agree(fold, expected[key], state[key]))
  {
    forall key | key in expected && key in state
      ensures ValueMatches(fold, expected[key], state[key]) <==> IsToggle(fold, expected[key]) || Agree(fold, expected[key], state[key])
    {
      ValueMatchesMeaning(fold, expected[key], state[key]);
    }
  }

  method AckMatches(fold: string -> string, expected: Fields, state: Fields) returns (ok: bool)
    ensures ok == Matches(fold, expected, state)
  {
    var keys := expected.Keys;
    while keys != {}
      invariant keys <= expected.Keys
      invariant forall key | key in expected.Keys - keys ::
                  key in state && ValueMatches(fold, expected[key], state[key])
    {
      var key :| key in keys;
      if key !in state || !ValueMatches(fold, expected[key], state[key]) {
        return false;
      }
      keys := keys - {key};
    }
    return true;
  }

  // ---------- published properties ----------

  /** No access information, or the published bit. */
  predicate PublishedAccess(access: int) {
    access == 0 || HasAccess(access, EVENT_ACCESS)
  }

  /** Every (property, access) pair that occurs in the tree, nested features included. */
  function Occurrences(features: seq<Feature>): set<(string, int)>
    decreases features
  {
    if features == [] then {}
    else OccurrencesOf(features[0]) + Occurrences(features[1..])
  }

  function OccurrencesOf(feature: Feature): set<(string, int)>
    decreases feature
  {
    OwnOccurrence(feature) + Occurrences(feature.features)
  }

  function OwnOccurrence(feature: Feature): set<(string, int)> {
    if feature.property != "" then {(feature.property, feature.access)} else {}
  }

  lemma {:induction false} OccurrencesConcat(a: seq<Feature>, b: seq<Feature>)
    ensures Occurrences(a + b) == Occurrences(a) + Occurrences(b)
  {
    if a == [] {
      assert a + b == b;
    } else {
      assert (a + b)[0] == a[0] && (a + b)[1..] == a[1..] + b;
      OccurrencesConcat(a[1..], b);
    }
  }

  lemma {:induction false} OccurrencesAt(features: seq<Feature>, o: (string, int))
    ensures o in Occurrences(features) <==> exists i :: 0 <= i < |features| && o in OccurrencesOf(features[i])
  {
    if features != [] {
      OccurrencesAt(features[1..], o);
      if i :| 0 <= i < |features[1..]| && o in OccurrencesOf(features[1..][i]) {
        assert features[i + 1] == features[1..][i];
      }
      if i :| 0 <= i < |features| && o in OccurrencesOf(features[i]) {
        if i > 0 { assert features[1..][i - 1] == features[i]; }
      }
    }
  }

  /** Some node of the tree, at any depth, has the property and the access. */
  ghost predicate Occurs(features: seq<Feature>, property: string, access: int) {
    exists path :: NodeAt(features, path).Some? && NodeAt(features, path).value.property == property && NodeAt(features, path).value.access == access
  }

  /** The pairs collected are those of the nodes with a property, at any depth. */
  lemma {:induction false} OccurrencesMeaning(features: seq<Feature>, property: string, access: int)
    ensures (property, access) in Occurrences(features) <==> property != "" && Occurs(features, property, access)
    decreases features
  {
    var o := (property, access);
    OccurrencesAt(features, o);
    if i :| 0 <= i < |features| && o in OccurrencesOf(features[i]) {
      OccurrencesMeaning(features[i].features, property, access);
      if o in Occurrences(features[i].features) {
        var path :| NodeAt(features[i].features, path).Some? && NodeAt(features[i].features, path).value.property == property
                    && NodeAt(features[i].features, path).value.access == access;
        NodeBelow(features, i, path);
        assert NodeAt(features, [i] + path).Some?;
      } else {
        NodeBelow(features, i, []);
        assert NodeAt(features, [i]).Some?;
      }
    }
    if property != "" && Occurs(features, property, access) {
      var path :| NodeAt(features, path).Some? && NodeAt(features, path).value.property == property
                  && NodeAt(features, path).value.access == access;
      var i := path[0];
      OccurrencesMeaning(features[i].features, property, access);
      if |path| > 1 {
        assert NodeAt(features[i].features, path[1..]).Some?;
      }
      assert o in OccurrencesOf(features[i]);
    }
  }

  predicate PublishedIn(occurrences: set<(string, int)>, property: string) {
    exists o | o in occurrences :: o.0 == property && PublishedAccess(o.1)
  }

  /** What the accumulator must hold after `occurrences` were added to `before`. */
  function Accumulated(before: map<string, bool>, occurrences: set<(string, int)>): map<string, bool> {
    map p | p in before.Keys + Properties(occurrences) ::
      (p in before && before[p]) || PublishedIn(occurrences, p)
  }

  function Properties(occurrences: set<(string, int)>): set<string> {
    set o | o in occurrences :: o.0
  }

  lemma AccumulatedTrans(before: map<string, bool>, o1: set<(string, int)>, o2: set<(string, int)>)
    ensures Accumulated(Accumulated(before, o1), o2) == Accumulated(before, o1 + o2)
  {
    var x := Accumulated(Accumulated(before, o1), o2);
    var y := Accumulated(before, o1 + o2);
    assert x.Keys == y.Keys;
    forall p | p in x
      ensures x[p] == y[p]
    {
      assert PublishedIn(o1 + o2, p) <==> PublishedIn(o1, p) || PublishedIn(o2, p) by {
        forall o | o in o1 || o in o2 ensures o in o1 + o2 {}
      }
    }
  }

  /** The `map[string]bool` that collectPublishedProperties fills in place. */
  class PropertySet {
    var entries: map<string, bool>

    constructor ()
      ensures entries == map[]
    {
      entries := map[];
    }

    /** collectPublishedProperties */
    method Collect(features: seq<Feature>)
      modifies this
      ensures entries == Accumulated(old(entries), Occurrences(features))
      decreases features
    {
      assert entries == Accumulated(entries, Occurrences(features[..0]));
      for i := 0 to |features|
        invariant entries == Accumulated(old(entries), Occurrences(features[..i]))
      {
        var feature := features[i];
        AddOwn(feature);
        Collect(feature.features);
        AppendOccurrences(old(entries), features, i);
      }
      assert features[..|features|] == features;
    }

    /** The first half of the loop body: the feature's own property. */
    method AddOwn(feature: Feature)
      modifies this
      ensures entries == Accumulated(old(entries), OwnOccurrence(feature))
    {
      if feature.property != "" {
        ghost var o := (feature.property, feature.access);
        assert forall x :: x in OwnOccurrence(feature) <==> x == o;
        if PublishedAccess(feature.access) {
          entries := entries[feature.property := true];
        } else if feature.property !in entries {
          entries := entries[feature.property := false];
        }
      }
    }
  }

  lemma OccurrencesAppend(features: seq<Feature>, i: nat)
    requires i < |features|
    ensures Occurrences(features[..i + 1]) == Occurrences(features[..i]) + OccurrencesOf(features[i])
  {
    var f := features[i];
    OccurrencesConcat(features[..i], [f]);
    assert features[..i + 1] == features[..i] + [f];
    assert [f][1..] == [];
    assert Occurrences([f]) == OccurrencesOf(f);
  }

  lemma AppendOccurrences(before: map<string, bool>, features: seq<Feature>, i: nat)
    requires i < |features|
    ensures Accumulated(Accumulated(Accumulated(before, Occurrences(features[..i])), OwnOccurrence(features[i])), Occurrences(features[i].features))
         == Accumulated(before, Occurrences(features[..i + 1]))
  {
    OccurrencesAppend(features, i);
    AccumulatedThree(before, Occurrences(features[..i]), OwnOccurrence(features[i]), Occurrences(features[i].features));
  }

  lemma AccumulatedThree(before: map<string, bool>, x: set<(string, int)>, y: set<(string, int)>, z: set<(string, int)>)
    ensures Accumulated(Accumulated(Accumulated(before, x), y), z) == Accumulated(before, x + (y + z))
  {
    AccumulatedTrans(Accumulated(before, x), y, z);
    AccumulatedTrans(before, x, y + z);
  }

  // ---------- the expectation ----------

  /** A key of the payload is comparable with the published state of the device. */
  predicate Comparable(key: string, exposes: seq<Feature>, lastState: Fields) {
    && key != TRANSITION_KEY
    && (exposes != [] ==> PublishedIn(Occurrences(exposes), key))
    && (lastState != map[] ==> key in lastState)
  }

  /** The expectation of a payload: its comparable part. */
  function Expectation(payload: Fields, exposes: seq<Feature>, lastState: Fields): (r: Fields)
    ensures r.Keys <= payload.Keys
  {
    map key | key in payload && Comparable(key, exposes, lastState) :: payload[key]
  }

  /**
   Which keys of a payload a command waits for: all but "transition" that some node of the definition has
   as published property, if there is a definition, and that the last state has, if one is known.
   */
  lemma ExpectationMeaning(payload: Fields, exposes: seq<Feature>, lastState: Fields, key: string)
    ensures key in Expectation(payload, exposes, lastState)
       <==> && key in payload && key != "transition"
            && (exposes != [] ==> key != "" && exists access :: Occurs(exposes, key, access) && (access == 0 || access % 2 == 1))
            && (lastState != map[] ==> key in lastState)
    ensures key in Expectation(payload, exposes, lastState) ==> Expectation(payload, exposes, lastState)[key] == payload[key]
  {
    if PublishedIn(Occurrences(exposes), key) {
      var o :| o in Occurrences(exposes) && o.0 == key && PublishedAccess(o.1);
      OccurrencesMeaning(exposes, key, o.1);
      AccessBits(o.1);
      assert Occurs(exposes, key, o.1);
    }
    if key != "" {
      if access :| Occurs(exposes, key, access) && (access == 0 || access % 2 == 1) {
        OccurrencesMeaning(exposes, key, access);
        AccessBits(access);
        assert (key, access) in Occurrences(exposes) && PublishedAccess((key, access).1);
      }
    }
  }

  /** json.Unmarshal into a map[string]interface{}: an object, or null, which leaves the map nil */
  function ParseFields(parse: string -> Option<Json>, data: string): Option<Fields> {
    match parse(data)
    case Some(Object(fields)) => Some(fields)
    case Some(Null) => Some(map[])
    case _ => None
  }

  /** An object is read as its entries, null as no entries; any other document, or none, is no payload and no state. */
  lemma ParseMeaning(parse: string -> Option<Json>, data: string)
    ensures match parse(data)
            case Some(Object(fields)) => ParseFields(parse, data) == Some(fields)
            case Some(Null) => ParseFields(parse, data) == Some(map[])
            case _ => ParseFields(parse, data) == None
  {
  }

  /** None is the Go result ok == false: nothing to wait for. */
  function ExpectationOf(parse: string -> Option<Json>, data: string, exposes: seq<Feature>, lastState: Fields)
    : (r: Option<Fields>)
  {
    match ParseFields(parse, data)
    case None => None
    case Some(payload) =>
      var expected := Expectation(payload, exposes, lastState);
      if expected == map[] then None else Some(expected)
  }

  /** ackExpectation */
  method AckExpectation(parse: string -> Option<Json>, data: string, exposes: seq<Feature>, lastState: Fields)
    returns (expected: Fields, ok: bool)
    ensures ok == ExpectationOf(parse, data, exposes, lastState).Some?
    ensures ok ==> expected == ExpectationOf(parse, data, exposes, lastState).value
  {
    var parsed := ParseFields(parse, data);
    if parsed.None? {
      return map[], false;
    }
    var payload := parsed.value;
    var published: Option<map<string, bool>> := None;
    if |exposes| > 0 {
      var collected := new PropertySet();
      collected.Collect(exposes);
      published := Some(collected.entries);
    }
    expected := KeepComparable(payload, published, lastState);
    KeptIsExpectation(payload, exposes, lastState);
    ok := |expected| > 0;
  }

  /** The three `continue` conditions of the loop over the payload. */
  predicate Skipped(key: string, published: Option<map<string, bool>>, lastState: Fields) {
    || key == TRANSITION_KEY
    || (published.Some? && !(key in published.value && published.value[key]))
    || (|lastState| > 0 && key !in lastState)
  }

  function Kept(payload: Fields, published: Option<map<string, bool>>, lastState: Fields): Fields {
    map key | key in payload && !Skipped(key, published, lastState) :: payload[key]
  }

  /** The loop over the payload, whose order Go leaves open. */
  method KeepComparable(payload: Fields, published: Option<map<string, bool>>, lastState: Fields) returns (expected: Fields)
    ensures expected == Kept(payload, published, lastState)
  {
    expected := map[];
    var keys := payload.Keys;
    while keys != {}
      invariant keys <= payload.Keys
      invariant expected == map key | key in payload && key !in keys && !Skipped(key, published, lastState) :: payload[key]
    {
      var key :| key in keys;
      keys := keys - {key};
      if Skipped(key, published, lastState) {
        continue;
      }
      expected := expected[key := payload[key]];
    }
  }

  function Collected(exposes: seq<Feature>): Option<map<string, bool>> {
    if exposes == [] then None else Some(Accumulated(map[], Occurrences(exposes)))
  }

  lemma KeptIsExpectation(payload: Fields, exposes: seq<Feature>, lastState: Fields)
    ensures Kept(payload, Collected(exposes), lastState) == Expectation(payload, exposes, lastState)
  {
    forall key | key in payload
      ensures Skipped(key, Collected(exposes), lastState) <==> !Comparable(key, exposes, lastState)
    {
      if exposes != [] && PublishedIn(Occurrences(exposes), key) {
        assert key in Properties(Occurrences(exposes));
      }
    }
  }

  /** `state` shows every key of `payload` with the payload's own value. */
  ghost predicate Extends(state: Fields, payload: Fields) {
    forall key | key in payload :: key in state && state[key] == payload[key]
  }

  /** Echo completeness: whatever the definition and the last state, an echo of the payload satisfies the expectation. */
  lemma EchoSatisfies(fold: string -> string, payload: Fields, exposes: seq<Feature>, lastState: Fields, state: Fields)
    requires Extends(state, payload)
    ensures Matches(fold, Expectation(payload, exposes, lastState), state)
  {
    var expected := Expectation(payload, exposes, lastState);
    forall key | key in expected
      ensures key in state && ValueMatches(fold, expected[key], state[key])
    {
      ValueMatchesMeaning(fold, expected[key], state[key]);
    }
  }

  /** A weaker expectation and a richer state keep a match. */
  lemma MatchesMonotone(fold: string -> string, expected: Fields, state: Fields, fewer: Fields, more: Fields)
    requires Matches(fold, expected, state)
    requires Extends(expected, fewer) && Extends(more, state)
    ensures Matches(fold, fewer, more)
  {
    forall key | key in fewer
      ensures key in more && ValueMatches(fold, fewer[key], more[key])
    {
      assert key in expected && key in state;
    }
  }

  /** A larger last state and a definition that publishes more can only add keys to wait for. */
  lemma ExpectationMonotone(payload: Fields, exposes: seq<Feature>, moreExposes: seq<Feature>, last: Fields, moreLast: Fields)
    requires last != map[] && last.Keys <= moreLast.Keys
    requires exposes != [] && Occurrences(exposes) <= Occurrences(moreExposes)
    ensures Extends(Expectation(payload, moreExposes, moreLast), Expectation(payload, exposes, last))
  {
    var small := Expectation(payload, exposes, last);
    var large := Expectation(payload, moreExposes, moreLast);
    forall key | key in small
      ensures key in large && large[key] == small[key]
    {
      var o :| o in Occurrences(exposes) && o.0 == key && PublishedAccess(o.1);
      assert o in Occurrences(moreExposes);
    }
  }

  /** Only the set of (property, access) pairs of a definition matters, not their order or nesting. */
  lemma ExpectationOrderFree(payload: Fields, a: seq<Feature>, b: seq<Feature>, lastState: Fields)
    requires Occurrences(a) == Occurrences(b)
    requires (a == []) == (b == [])
    ensures Expectation(payload, a, lastState) == Expectation(payload, b, lastState)
  {
  }
}
