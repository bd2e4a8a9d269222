/**
 Traversals of the `exposes` tree that build messages (pkg/zigbee2mqtt/devices.go,
 pkg/zigbee2mqtt/event.go). Go maps are values here: definitions are not shared with results.
 */
module Exposes {
  import opened Common
  import opened FeatureTree

  type Message = map<string, Json>

  // ---------- the example message ----------

  predicate KnownKind(kind: string) {
    kind == "numeric" || kind == "binary" || kind == "enum" || kind == "text" || kind == "list"
  }

  /** The value of an accessible feature without sub-features; None for an unknown type. */
  function LeafValue(f: Feature, mask: nat): Option<Json>
    decreases f, 0
  {
    if f.kind == "numeric" then Some(Number(if f.valueMax > 0.0 then f.valueMax else 42.0))
    else if f.kind == "binary" then Some(f.valueOn)
    else if f.kind == "enum" then Some(if |f.values| > 0 then f.values[0] else Null)
    else if f.kind == "text" then Some(String("text"))
    else if f.kind == "list" then
      if f.itemType.None? then Some(Array([]))
      else
        var item := f.itemType.value;
        var sub := AddFeature(map[], item, mask);
        if |item.features| > 0 then Some(Array([Object(sub)]))
        else Some(Array([if item.property in sub then sub[item.property] else Null]))
    else None
  }

  function AddFeature(req: Message, f: Feature, mask: nat): Message
    decreases f, 1
  {
    if |f.features| > 0 then
      var sub := MessageOf(f.features, mask);
      if |sub| > 0 || HasAccess(f.access, mask) then
        if f.property != "" then
          var merged := if f.property in req && req[f.property].Object? then req[f.property].fields + sub else sub;
          req[f.property := Object(merged)]
        else req + sub
      else req
    else if HasAccess(f.access, mask) then
      match LeafValue(f, mask)
      case Some(value) => req[f.property := value]
      case None => req
    else req
  }

  function MessageOf(features: seq<Feature>, mask: nat): Message
    decreases features
  {
    if features == [] then map[]
    else AddFeature(MessageOf(features[..|features| - 1], mask), features[|features| - 1], mask)
  }

  lemma MessageAppend(features: seq<Feature>, i: nat, mask: nat)
    requires i < |features|
    ensures MessageOf(features[..i + 1], mask) == AddFeature(MessageOf(features[..i], mask), features[i], mask)
  {
    assert features[..i + 1][..i] == features[..i];
  }

  /** Every node of the tree, features and item types. */
  function NodeCount(features: seq<Feature>): nat
    decreases features
  {
    if features == [] then 0
    else NodeCountOf(features[|features| - 1]) + NodeCount(features[..|features| - 1])
  }

  function NodeCountOf(f: Feature): nat
    decreases f
  {
    1 + NodeCount(f.features) + if f.itemType.Some? then NodeCountOf(f.itemType.value) else 0
  }

  lemma {:induction false} NodeCountAt(features: seq<Feature>, i: nat)
    requires i < |features|
    ensures NodeCountOf(features[i]) <= NodeCount(features)
  {
    if i < |features| - 1 {
      NodeCountAt(features[..|features| - 1], i);
    }
  }

  /** Copies every entry of `sub` into the message, over what it had for the key. */
  method Merge(m: Message, sub: Message) returns (r: Message)
    ensures r == m + sub
  {
    r := m;
    var keys := sub.Keys;
    while keys != {}
      invariant keys <= sub.Keys
      invariant r == m + map k | k in sub && k !in keys :: sub[k]
    {
      var k :| k in keys;
      r := r[k := sub[k]];
      keys := keys - {k};
    }
    assert (map k | k in sub && k !in keys :: sub[k]) == sub;
  }

  method GetZigbeeMessageStructOfFeatureList(features: seq<Feature>, access: nat) returns (req: Message)
    ensures req == MessageOf(features, access)
    decreases NodeCount(features), 1
  {
    req := map[];
    var todo := features;
    for i := 0 to |todo|
      invariant req == MessageOf(todo[..i], access)
    {
      var field := todo[i];
      NodeCountAt(todo, i);
      ghost var before := req;
      MessageAppend(todo, i, access);
      if |field.features| > 0 {
        var sub := GetZigbeeMessageStructOfFeatureList(field.features, access);
        if |sub| > 0 || HasAccess(field.access, access) {
          if field.property != "" {
            if field.property in req && req[field.property].Object? {
              sub := Merge(req[field.property].fields, sub);
            }
            req := req[field.property := Object(sub)];
          } else {
            req := Merge(req, sub);
          }
        }
      } else if HasAccess(field.access, access) {
        if field.kind == "numeric" {
          req := req[field.property := Number(if field.valueMax > 0.0 then field.valueMax else 42.0)];
        } else if field.kind == "binary" {
          req := req[field.property := field.valueOn];
        } else if field.kind == "enum" {
          req := req[field.property := if |field.values| > 0 then field.values[0] else Null];
        } else if field.kind == "text" {
          req := req[field.property := String("text")];
        } else if field.kind == "list" {
          var value := ListValue(field, access);
          req := req[field.property := value];
        }
      }
      assert req == AddFeature(before, field, access);
    }
    assert todo[..|todo|] == features;
  }

  /** The "list" case. */
  method ListValue(field: Feature, access: nat) returns (value: Json)
    requires field.kind == "list"
    ensures Some(value) == LeafValue(field, access)
    decreases NodeCountOf(field), 0
  {
    if field.itemType.None? {
      return Array([]);
    }
    var item := field.itemType.value;
    assert [item][..0] == [] && NodeCount([item]) == NodeCountOf(item);
    var sub := GetZigbeeMessageStructOfFeatureList([item], access);
    if |item.features| > 0 {
      value := Array([Object(sub)]);
    } else {
      // None of its own features: the message of the item has one entry, or none if it is not accessible.
      value := Array([if item.property in sub then sub[item.property] else Null]);
    }
  }

  // ---------- which keys the message has ----------

  function Keys(features: seq<Feature>, mask: nat): set<string>
    decreases features
  {
    if features == [] then {} else KeysOf(features[|features| - 1], mask) + Keys(features[..|features| - 1], mask)
  }

  /** What one feature contributes, whatever its neighbours are. */
  function KeysOf(f: Feature, mask: nat): set<string>
    decreases f
  {
    if |f.features| > 0 then
      var sub := Keys(f.features, mask);
      if sub == {} && !HasAccess(f.access, mask) then {}
      else if f.property != "" then {f.property}
      else sub
    else if HasAccess(f.access, mask) && KnownKind(f.kind) then {f.property}
    else {}
  }

  lemma {:induction false} MessageKeys(features: seq<Feature>, mask: nat)
    ensures MessageOf(features, mask).Keys == Keys(features, mask)
    decreases features
  {
    if features != [] {
      var before := features[..|features| - 1];
      MessageKeys(before, mask);
      AddFeatureKeys(MessageOf(before, mask), features[|features| - 1], mask);
    }
  }

  lemma {:induction false} AddFeatureKeys(req: Message, f: Feature, mask: nat)
    ensures AddFeature(req, f, mask).Keys == req.Keys + KeysOf(f, mask)
    decreases f
  {
    if |f.features| > 0 {
      MessageKeys(f.features, mask);
      var sub := MessageOf(f.features, mask);
      assert |sub| > 0 <==> sub.Keys != {};
    }
  }

  /** The keys of a combined access are the keys of the parts, through composites with and without property. */
  lemma {:induction false} KeysDistribute(features: seq<Feature>, a: nat, b: nat)
    ensures Keys(features, Or(a, b)) == Keys(features, a) + Keys(features, b)
    decreases features
  {
    if features != [] {
      KeysDistribute(features[..|features| - 1], a, b);
      KeysOfDistribute(features[|features| - 1], a, b);
    }
  }

  lemma {:induction false} KeysOfDistribute(f: Feature, a: nat, b: nat)
    ensures KeysOf(f, Or(a, b)) == KeysOf(f, a) + KeysOf(f, b)
    decreases f
  {
    HasAccessOr(f.access, a, b);
    if |f.features| > 0 {
      KeysDistribute(f.features, a, b);
    }
  }

  /** The same law for the messages themselves. */
  lemma MessageKeysDistribute(features: seq<Feature>, a: nat, b: nat)
    ensures MessageOf(features, Or(a, b)).Keys == MessageOf(features, a).Keys + MessageOf(features, b).Keys
  {
    MessageKeys(features, Or(a, b));
    MessageKeys(features, a);
    MessageKeys(features, b);
    KeysDistribute(features, a, b);
  }

  /** Every node of `xs`, at every level, has a counterpart in `ys`: the order and the number of copies are free. */
  ghost predicate Within(xs: seq<Feature>, ys: seq<Feature>)
    decreases xs
  {
    xs == [] || (Among(xs[0], ys) && Within(xs[1..], ys))
  }

  ghost predicate Among(f: Feature, ys: seq<Feature>)
    decreases f, |ys|
  {
    ys != [] && (Like(f, ys[0]) || Among(f, ys[1..]))
  }

  ghost predicate Like(f: Feature, g: Feature)
    decreases f, 0
  {
    && f.property == g.property && f.access == g.access && f.kind == g.kind
    && (f.features == [] <==> g.features == [])
    && Within(f.features, g.features)
  }

  /** The same nodes in any order, at any depth. */
  ghost predicate SameTrees(xs: seq<Feature>, ys: seq<Feature>) {
    Within(xs, ys) && Within(ys, xs)
  }

  lemma {:induction false} SameFeatures(xs: seq<Feature>, ys: seq<Feature>)
    requires forall f | f in xs :: f in ys
    ensures Within(xs, ys)
    decreases xs
  {
    if xs != [] {
      FoundAmong(xs[0], ys);
      SameFeatures(xs[1..], ys);
    }
  }

  lemma {:induction false} FoundAmong(f: Feature, ys: seq<Feature>)
    requires f in ys
    ensures Among(f, ys)
    decreases f, |ys|
  {
    if ys[0] == f {
      SameFeatures(f.features, f.features);
    } else {
      FoundAmong(f, ys[1..]);
    }
  }

  lemma {:induction false} KeysCons(ys: seq<Feature>, mask: nat)
    requires ys != []
    ensures Keys(ys, mask) == KeysOf(ys[0], mask) + Keys(ys[1..], mask)
  {
    if |ys| > 1 {
      var init := ys[..|ys| - 1];
      KeysCons(init, mask);
      assert ys[1..][..|ys| - 2] == init[1..];
    }
  }

  lemma {:induction false} WithinKeys(xs: seq<Feature>, ys: seq<Feature>, mask: nat)
    requires Within(xs, ys)
    ensures Keys(xs, mask) <= Keys(ys, mask)
    decreases xs
  {
    if xs != [] {
      KeysCons(xs, mask);
      AmongKeys(xs[0], ys, mask);
      WithinKeys(xs[1..], ys, mask);
    }
  }

  lemma {:induction false} AmongKeys(f: Feature, ys: seq<Feature>, mask: nat)
    requires Among(f, ys)
    ensures KeysOf(f, mask) <= Keys(ys, mask)
    decreases f, |ys|
  {
    KeysCons(ys, mask);
    if Like(f, ys[0]) {
      WithinKeys(f.features, ys[0].features, mask);
    } else {
      AmongKeys(f, ys[1..], mask);
    }
  }

  /** The order in which features are listed, at any depth, does not change which keys appear. */
  lemma KeysOrderFree(xs: seq<Feature>, ys: seq<Feature>, mask: nat)
    requires SameTrees(xs, ys)
    ensures MessageOf(xs, mask).Keys == MessageOf(ys, mask).Keys
  {
    MessageKeys(xs, mask);
    MessageKeys(ys, mask);
    WithinKeys(xs, ys, mask);
    WithinKeys(ys, xs, mask);
  }

  // ---------- composites of one property ----------

  predicate CompositeOf(f: Feature, p: string) {
    f.features != [] && f.property == p
  }

  /** What the composites of one property amount to, later ones overriding earlier ones. */
  function Combined(features: seq<Feature>, p: string, mask: nat): Message {
    if features == [] then map[]
    else
      var before := Combined(features[..|features| - 1], p, mask);
      var last := features[|features| - 1];
      if CompositeOf(last, p) then before + MessageOf(last.features, mask) else before
  }

  /** A feature that does not contribute a key leaves the key alone. */
  lemma Elsewhere(req: Message, f: Feature, p: string, mask: nat)
    requires p !in KeysOf(f, mask)
    ensures p in AddFeature(req, f, mask) <==> p in req
    ensures p in req ==> AddFeature(req, f, mask)[p] == req[p]
  {
    if f.features != [] {
      MessageKeys(f.features, mask);
      EmptyIffNoKeys(f.features, mask);
    }
  }

  lemma EmptyIffNoKeys(features: seq<Feature>, mask: nat)
    ensures MessageOf(features, mask) == map[] <==> Keys(features, mask) == {}
    ensures |MessageOf(features, mask)| > 0 <==> Keys(features, mask) != {}
  {
    MessageKeys(features, mask);
    assert MessageOf(features, mask) == map[] <==> MessageOf(features, mask).Keys == {};
  }

  /** A contributing composite is merged into the object that is there. */
  lemma Merged(req: Message, f: Feature, p: string, mask: nat)
    requires CompositeOf(f, p) && p != "" && p in KeysOf(f, mask)
    ensures var r := AddFeature(req, f, mask);
      var sub := MessageOf(f.features, mask);
      p in r && r[p] == Object(if p in req && req[p].Object? then req[p].fields + sub else sub)
  {
    EmptyIffNoKeys(f.features, mask);
  }

  lemma MergedObject(req: Message, f: Feature, p: string, mask: nat)
    requires CompositeOf(f, p) && p != "" && p in KeysOf(f, mask) && (p in req ==> req[p].Object?)
    ensures var r := AddFeature(req, f, mask);
      p in r && r[p] == Object((if p in req then req[p].fields else map[]) + MessageOf(f.features, mask))
  {
    Merged(req, f, p, mask);
    assert map[] + MessageOf(f.features, mask) == MessageOf(f.features, mask);
  }

  /**
   If all features of a list that contribute a property are composites of it, however many and wherever
   they are listed, the message has one object for it: all of them combined.
   */
  lemma {:induction false} CompositesMerge(features: seq<Feature>, p: string, mask: nat)
    requires p != "" && forall f | f in features :: p in KeysOf(f, mask) ==> CompositeOf(f, p)
    ensures var r := MessageOf(features, mask);
      if p in r then r[p] == Object(Combined(features, p, mask)) else Combined(features, p, mask) == map[]
  {
    if features != [] {
      var init, last := features[..|features| - 1], features[|features| - 1];
      CompositesMerge(init, p, mask);
      if p in KeysOf(last, mask) {
        MergedObject(MessageOf(init, mask), last, p, mask);
      } else {
        Elsewhere(MessageOf(init, mask), last, p, mask);
        if CompositeOf(last, p) {
          EmptyIffNoKeys(last.features, mask);
        }
      }
    }
  }

  predicate Gives(f: Feature, p: string, mask: nat, k: string) {
    CompositeOf(f, p) && k in Keys(f.features, mask)
  }

  /** The last composite of the property that gives the key, or -1. */
  function LastGiving(features: seq<Feature>, p: string, mask: nat, k: string): (i: int)
    ensures -1 <= i < |features|
    ensures i >= 0 ==> Gives(features[i], p, mask, k)
    ensures forall j | i < j < |features| :: !Gives(features[j], p, mask, k)
  {
    if features == [] then -1
    else if Gives(features[|features| - 1], p, mask, k) then |features| - 1
    else LastGiving(features[..|features| - 1], p, mask, k)
  }

  /** The combined object has the keys of all its composites, each with the value of the last one that gives it. */
  lemma {:induction false} CombinedMeaning(features: seq<Feature>, p: string, mask: nat, k: string)
    ensures var i := LastGiving(features, p, mask, k);
      && (k in Combined(features, p, mask) <==> i >= 0)
      && (i >= 0 ==> k in MessageOf(features[i].features, mask) && Combined(features, p, mask)[k] == MessageOf(features[i].features, mask)[k])
  {
    if features != [] {
      CombinedMeaning(features[..|features| - 1], p, mask, k);
      MessageKeys(features[|features| - 1].features, mask);
    }
  }

  // ---------- the keys, in terms of the nodes of the tree ----------

  lemma {:induction false} KeysAt(features: seq<Feature>, mask: nat, p: string)
    ensures p in Keys(features, mask) <==> exists i :: 0 <= i < |features| && p in KeysOf(features[i], mask)
  {
    if features != [] {
      var n := |features| - 1;
      KeysAt(features[..n], mask, p);
      if i :| 0 <= i < n && p in KeysOf(features[..n][i], mask) {
        assert features[i] == features[..n][i];
      }
      if i :| 0 <= i < |features| && p in KeysOf(features[i], mask) {
        if i < n { assert features[..n][i] == features[i]; }
      }
    }
  }

  /** A node that gives a message something by itself: an accessible leaf of a known type or composite with a property. */
  predicate Live(f: Feature, mask: nat) {
    HasAccess(f.access, mask) && if f.features == [] then KnownKind(f.kind) else f.property != ""
  }

  ghost predicate AnyLive(features: seq<Feature>, mask: nat) {
    exists path :: NodeAt(features, path).Some? && Live(NodeAt(features, path).value, mask)
  }

  lemma {:induction false} KeysIffLive(features: seq<Feature>, mask: nat)
    ensures Keys(features, mask) != {} <==> AnyLive(features, mask)
    decreases features
  {
    if Keys(features, mask) != {} {
      var p :| p in Keys(features, mask);
      KeysAt(features, mask, p);
      var i :| 0 <= i < |features| && p in KeysOf(features[i], mask);
      KeysIffLive(features[i].features, mask);
      NodeBelow(features, i, []);
      if Live(features[i], mask) {
        assert NodeAt(features, [i]).Some?;
      } else {
        var path :| NodeAt(features[i].features, path).Some? && Live(NodeAt(features[i].features, path).value, mask);
        NodeBelow(features, i, path);
        assert NodeAt(features, [i] + path).Some?;
      }
    }
    if AnyLive(features, mask) {
      var path :| NodeAt(features, path).Some? && Live(NodeAt(features, path).value, mask);
      var i := path[0];
      KeysIffLive(features[i].features, mask);
      if |path| > 1 {
        assert NodeAt(features[i].features, path[1..]).Some?;
      }
      var p :| p in KeysOf(features[i], mask);
      KeysAt(features, mask, p);
    }
  }

  /** What a node gives under its own property: a leaf if it is live, a composite if it or anything below it is. */
  ghost predicate GivesOwn(f: Feature, p: string, mask: nat) {
    && f.property == p
    && if f.features == [] then HasAccess(f.access, mask) && KnownKind(f.kind)
       else p != "" && (HasAccess(f.access, mask) || AnyLive(f.features, mask))
  }

  /** Some node reached through property-less nodes gives the key. */
  ghost predicate GivenByNode(features: seq<Feature>, p: string, mask: nat) {
    exists path :: OpenNodeAt(features, path).Some? && GivesOwn(OpenNodeAt(features, path).value, p, mask)
  }

  /** The keys of the message are those some node gives which is reached through property-less nodes. */
  lemma {:induction false} KeysMeaning(features: seq<Feature>, mask: nat, p: string)
    ensures p in MessageOf(features, mask) <==> GivenByNode(features, p, mask)
    decreases features
  {
    MessageKeys(features, mask);
    KeysAt(features, mask, p);
    if i :| 0 <= i < |features| && p in KeysOf(features[i], mask) {
      OwnOrBelow(features[i], p, mask);
      if GivesOwn(features[i], p, mask) {
        NodeBelow(features, i, []);
        assert OpenNodeAt(features, [i]).Some?;
      } else {
        KeysMeaning(features[i].features, mask, p);
        MessageKeys(features[i].features, mask);
        var path :| OpenNodeAt(features[i].features, path).Some? && GivesOwn(OpenNodeAt(features[i].features, path).value, p, mask);
        NodeBelow(features, i, path);
        assert OpenNodeAt(features, [i] + path).Some?;
      }
    }
    if GivenByNode(features, p, mask) {
      var path :| OpenNodeAt(features, path).Some? && GivesOwn(OpenNodeAt(features, path).value, p, mask);
      var i := path[0];
      OwnOrBelow(features[i], p, mask);
      if |path| > 1 {
        assert OpenNodeAt(features[i].features, path[1..]).Some?;
        KeysMeaning(features[i].features, mask, p);
        MessageKeys(features[i].features, mask);
      }
      assert p in KeysOf(features[i], mask);
    }
  }

  lemma OwnOrBelow(f: Feature, p: string, mask: nat)
    ensures p in KeysOf(f, mask)
       <==> GivesOwn(f, p, mask) || (f.features != [] && f.property == "" && p in Keys(f.features, mask))
  {
    KeysIffLive(f.features, mask);
  }

  // ---------- the examples ----------

  /**
   The example of an accessible leaf that is the last to contribute its property: the maximum of a number,
   or 42 without a positive one, the "on" value of a binary, the first value of an enum, the text "text", an
   empty list without an item type.
   */
  lemma LeafExample(features: seq<Feature>, mask: nat)
    requires features != [] && features[|features| - 1].features == [] && HasAccess(features[|features| - 1].access, mask)
    ensures var f := features[|features| - 1];
      var r := MessageOf(features, mask);
      && (f.kind == "numeric" && f.valueMax > 0.0 ==> f.property in r && r[f.property] == Number(f.valueMax))
      && (f.kind == "numeric" && f.valueMax <= 0.0 ==> f.property in r && r[f.property] == Number(42.0))
      && (f.kind == "binary" ==> f.property in r && r[f.property] == f.valueOn)
      && (f.kind == "enum" && f.values != [] ==> f.property in r && r[f.property] == f.values[0])
      && (f.kind == "enum" && f.values == [] ==> f.property in r && r[f.property] == Null)
      && (f.kind == "text" ==> f.property in r && r[f.property] == String("text"))
      && (f.kind == "list" && f.itemType.None? ==> f.property in r && r[f.property] == Array([]))
      && (f.kind == "list" && f.itemType.Some? ==>
            var item := f.itemType.value;
            var sub := MessageOf([item], mask);
            && f.property in r && r[f.property].Array? && |r[f.property].items| == 1
            && r[f.property].items[0] == if item.features != [] then Object(sub)
                                         else if item.property in sub then sub[item.property] else Null)
      && (f.kind !in {"numeric", "binary", "enum", "text", "list"} ==> r == MessageOf(features[..|features| - 1], mask))
  {
    var f := features[|features| - 1];
    var before := MessageOf(features[..|features| - 1], mask);
    assert MessageOf(features, mask) == AddFeature(before, f, mask);
    var value := LeafValue(f, mask);
    assert AddFeature(before, f, mask) == if value.Some? then before[f.property := value.value] else before;
    LeafByKind(f, mask);
  }

  lemma LeafByKind(f: Feature, mask: nat)
    ensures var v := LeafValue(f, mask);
      && (f.kind == "numeric" ==> v == Some(Number(if f.valueMax > 0.0 then f.valueMax else 42.0)))
      && (f.kind == "binary" ==> v == Some(f.valueOn))
      && (f.kind == "enum" ==> v == Some(if f.values != [] then f.values[0] else Null))
      && (f.kind == "text" ==> v == Some(String("text")))
      && (f.kind == "list" && f.itemType.None? ==> v == Some(Array([])))
      && (f.kind == "list" && f.itemType.Some? ==>
            var item := f.itemType.value;
            var sub := MessageOf([item], mask);
            v == Some(Array([if item.features != [] then Object(sub) else if item.property in sub then sub[item.property] else Null])))
      && (f.kind !in {"numeric", "binary", "enum", "text", "list"} ==> v == None)
  {
    if f.kind == "list" && f.itemType.Some? {
      var item := f.itemType.value;
      assert [item][..0] == [] && MessageOf([item][..0], mask) == map[];
      assert MessageOf([item], mask) == AddFeature(map[], item, mask);
    }
  }

  /** Features that do not contribute a property leave its value alone, so the last contributor decides. */
  lemma {:induction false} LastContributor(features: seq<Feature>, more: seq<Feature>, p: string, mask: nat)
    requires p !in MessageOf(more, mask)
    ensures p in MessageOf(features + more, mask) <==> p in MessageOf(features, mask)
    ensures p in MessageOf(features, mask) ==> MessageOf(features + more, mask)[p] == MessageOf(features, mask)[p]
  {
    if more == [] {
      assert features + more == features;
    } else {
      var init, last := more[..|more| - 1], more[|more| - 1];
      MessageKeys(more, mask);
      MessageKeys(init, mask);
      LastContributor(features, init, p, mask);
      assert (features + more)[..|features + more| - 1] == features + init;
      Elsewhere(MessageOf(features + init, mask), last, p, mask);
    }
  }

  // ---------- null-free messages ----------

  predicate NullFree(v: Json) {
    match v
    case Null => false
    case Array(items) => forall i | 0 <= i < |items| :: NullFree(items[i])
    case Object(fields) => forall k | k in fields :: NullFree(fields[k])
    case _ => true
  }

  /** Nothing accessible lacks an example value. */
  predicate Exemplary(features: seq<Feature>, mask: nat)
    decreases features
  {
    forall i | 0 <= i < |features| :: ExemplaryOf(features[i], mask)
  }

  predicate ExemplaryOf(f: Feature, mask: nat)
    decreases f
  {
    if |f.features| > 0 then Exemplary(f.features, mask)
    else
      HasAccess(f.access, mask) ==>
        && (f.kind == "binary" ==> NullFree(f.valueOn))
        && (f.kind == "enum" ==> |f.values| > 0 && NullFree(f.values[0]))
        && (f.kind == "list" && f.itemType.Some? ==>
              var item := f.itemType.value;
              && ExemplaryOf(item, mask)
              && (item.features == [] ==> HasAccess(item.access, mask) && KnownKind(item.kind)))
  }

  lemma {:induction false} MessageNullFree(features: seq<Feature>, mask: nat)
    requires Exemplary(features, mask)
    ensures NullFree(Object(MessageOf(features, mask)))
    decreases features, 1
  {
    if features != [] {
      var last := |features| - 1;
      MessageNullFree(features[..last], mask);
      AddFeatureNullFree(MessageOf(features[..last], mask), features[last], mask);
    }
  }

  lemma {:induction false} AddFeatureNullFree(req: Message, f: Feature, mask: nat)
    requires ExemplaryOf(f, mask) && NullFree(Object(req))
    ensures NullFree(Object(AddFeature(req, f, mask)))
    decreases f, 1
  {
    if |f.features| > 0 {
      MessageNullFree(f.features, mask);
    } else if HasAccess(f.access, mask) {
      LeafNullFree(f, mask);
    }
  }

  lemma {:induction false} LeafNullFree(f: Feature, mask: nat)
    requires ExemplaryOf(f, mask) && f.features == [] && HasAccess(f.access, mask)
    ensures LeafValue(f, mask).Some? ==> NullFree(LeafValue(f, mask).value)
    decreases f, 0
  {
    if f.kind == "list" && f.itemType.Some? {
      var item := f.itemType.value;
      AddFeatureNullFree(map[], item, mask);
      AddFeatureKeys(map[], item, mask);
      var sub := AddFeature(map[], item, mask);
      if item.features == [] {
        assert sub.Keys == {item.property};
        assert NullFree(sub[item.property]);
      }
    }
  }

  /** No two contributing features of one list share a key, at any depth. */
  predicate Separate(features: seq<Feature>, mask: nat)
    decreases features
  {
    features != [] ==>
      var init, last := features[..|features| - 1], features[|features| - 1];
      Separate(init, mask) && SeparateOf(last, mask) && KeysOf(last, mask) !! Keys(init, mask)
  }

  predicate SeparateOf(f: Feature, mask: nat)
    decreases f
  {
    if |f.features| > 0 then Separate(f.features, mask)
    else f.kind == "list" && f.itemType.Some? ==> SeparateOf(f.itemType.value, mask)
  }

  /** Where nothing is overwritten, a message holds no null iff nothing accessible lacks an example. */
  lemma {:induction false} NullFreeIff(features: seq<Feature>, mask: nat)
    requires Separate(features, mask)
    ensures NullFree(Object(MessageOf(features, mask))) <==> Exemplary(features, mask)
    decreases features, 1
  {
    if features != [] {
      var init, last := features[..|features| - 1], features[|features| - 1];
      NullFreeIff(init, mask);
      MessageKeys(init, mask);
      AddFeatureNullFreeIff(MessageOf(init, mask), last, mask);
      ExemplarySnoc(features, mask);
    }
  }

  lemma ExemplarySnoc(features: seq<Feature>, mask: nat)
    requires features != []
    ensures Exemplary(features, mask) <==> Exemplary(features[..|features| - 1], mask) && ExemplaryOf(features[|features| - 1], mask)
  {
    var init := features[..|features| - 1];
    if Exemplary(init, mask) && ExemplaryOf(features[|features| - 1], mask) {
      forall i | 0 <= i < |features| ensures ExemplaryOf(features[i], mask) {
        if i < |init| { assert init[i] == features[i]; }
      }
    }
    if Exemplary(features, mask) {
      forall i | 0 <= i < |init| ensures ExemplaryOf(init[i], mask) { assert init[i] == features[i]; }
    }
  }

  lemma NullFreeUnion(a: Message, b: Message)
    requires a.Keys !! b.Keys
    ensures NullFree(Object(a + b)) <==> NullFree(Object(a)) && NullFree(Object(b))
  {
    if NullFree(Object(a + b)) {
      forall k | k in a ensures NullFree(a[k]) { assert (a + b)[k] == a[k]; }
      forall k | k in b ensures NullFree(b[k]) { assert (a + b)[k] == b[k]; }
    }
  }

  lemma NullFreeUpdate(a: Message, k: string, v: Json)
    requires k !in a
    ensures NullFree(Object(a[k := v])) <==> NullFree(Object(a)) && NullFree(v)
  {
    assert a[k := v] == a + map[k := v];
    NullFreeUnion(a, map[k := v]);
    assert NullFree(Object(map[k := v])) <==> NullFree(v) by {
      assert map[k := v][k] == v;
    }
  }

  lemma {:induction false} AddFeatureNullFreeIff(req: Message, f: Feature, mask: nat)
    requires SeparateOf(f, mask) && KeysOf(f, mask) !! req.Keys
    ensures NullFree(Object(AddFeature(req, f, mask))) <==> NullFree(Object(req)) && ExemplaryOf(f, mask)
    decreases f, 1
  {
    if |f.features| > 0 {
      var sub := MessageOf(f.features, mask);
      NullFreeIff(f.features, mask);
      MessageKeys(f.features, mask);
      EmptyIffNoKeys(f.features, mask);
      if |sub| > 0 || HasAccess(f.access, mask) {
        if f.property != "" { NullFreeUpdate(req, f.property, Object(sub)); } else { NullFreeUnion(req, sub); }
      }
    } else if HasAccess(f.access, mask) && KnownKind(f.kind) {
      LeafNullFreeIff(f, mask);
      NullFreeUpdate(req, f.property, LeafValue(f, mask).value);
    }
  }

  lemma {:induction false} LeafNullFreeIff(f: Feature, mask: nat)
    requires SeparateOf(f, mask) && f.features == [] && HasAccess(f.access, mask) && KnownKind(f.kind)
    ensures NullFree(LeafValue(f, mask).value) <==> ExemplaryOf(f, mask)
    decreases f, 0
  {
    if f.kind == "list" && f.itemType.Some? {
      var item := f.itemType.value;
      var sub := AddFeature(map[], item, mask);
      AddFeatureNullFreeIff(map[], item, mask);
      AddFeatureKeys(map[], item, mask);
      if item.features != [] {
        ListNullFree(Object(sub));
      } else if item.property in sub {
        ListNullFree(sub[item.property]);
        assert sub == map[][item.property := sub[item.property]];
        NullFreeUpdate(map[], item.property, sub[item.property]);
      } else {
        ListNullFree(Null);
      }
    }
  }

  lemma ListNullFree(v: Json)
    ensures NullFree(Array([v])) <==> NullFree(v)
  {
    assert [v][0] == v;
  }

  // ---------- null-free messages, whatever is overwritten ----------

  function Dropped(over: Option<set<string>>): set<string> {
    if over.Some? then over.value else {}
  }

  /**
   What is left of a value holds no null. With `over` a composite comes later: it keeps of an object the
   entries it does not have itself, and replaces any other value.
   */
  ghost predicate Remains(v: Json, over: Option<set<string>>) {
    if over.None? then NullFree(v)
    else v.Object? ==> forall k | k in v.fields && k !in over.value :: NullFree(v.fields[k])
  }

  /** What the listed features leave at key `p` holds no null: the last contributor decides, and for a composite also those before it. */
  ghost predicate Clean(features: seq<Feature>, p: string, over: Option<set<string>>, mask: nat)
    decreases features
  {
    features != [] ==>
      var init, last := features[..|features| - 1], features[|features| - 1];
      if p !in KeysOf(last, mask) then Clean(init, p, over, mask)
      else CleanOf(last, p, over, mask) && (CompositeOf(last, p) && p != "" ==> Clean(init, p, Some(Dropped(over) + Keys(last.features, mask)), mask))
  }

  /** What one contributing feature itself leaves at the key. */
  ghost predicate CleanOf(f: Feature, p: string, over: Option<set<string>>, mask: nat)
    decreases f, 1
  {
    if f.features == [] then CleanLeaf(f, over, mask)
    else if f.property != "" then forall k | k in Keys(f.features, mask) && k !in Dropped(over) :: Clean(f.features, k, None, mask)
    else Clean(f.features, p, over, mask)
  }

  /** A plain feature: the example its definition gives, or for a list that of its items. */
  ghost predicate CleanLeaf(f: Feature, over: Option<set<string>>, mask: nat)
    decreases f, 0
  {
    match f.kind
    case "binary" => Remains(f.valueOn, over)
    case "enum" => if f.values == [] then over.Some? else Remains(f.values[0], over)
    case "list" =>
      over.Some? || f.itemType.None?
      || var item := f.itemType.value;
         if item.features != [] then forall k | k in KeysOf(item, mask) :: CleanOf(item, k, None, mask)
         else KeysOf(item, mask) != {} && CleanLeaf(item, None, mask)
    case _ => true
  }

  lemma {:induction false} CleanMeaning(features: seq<Feature>, p: string, over: Option<set<string>>, mask: nat)
    ensures MessageOf(features, mask).Keys == Keys(features, mask)
    ensures Clean(features, p, over, mask)
       <==> (p in Keys(features, mask) ==> Remains(MessageOf(features, mask)[p], over))
    decreases features, 1
  {
    MessageKeys(features, mask);
    if features != [] {
      var init, last := features[..|features| - 1], features[|features| - 1];
      var req := MessageOf(init, mask);
      MessageKeys(init, mask);
      if p !in KeysOf(last, mask) {
        Elsewhere(req, last, p, mask);
        CleanMeaning(init, p, over, mask);
      } else if CompositeOf(last, p) && p != "" {
        CleanMeaning(init, p, Some(Dropped(over) + Keys(last.features, mask)), mask);
        CompositeMeaning(req, last, p, over, mask);
      } else if last.features != [] {
        CleanMeaning(last.features, p, over, mask);
      } else {
        LeafMeaning(last, over, mask);
      }
    }
  }

  lemma {:induction false} CompositeMeaning(req: Message, f: Feature, p: string, over: Option<set<string>>, mask: nat)
    requires CompositeOf(f, p) && p != "" && p in KeysOf(f, mask)
    ensures p in AddFeature(req, f, mask)
    ensures Remains(AddFeature(req, f, mask)[p], over)
       <==> CleanOf(f, p, over, mask) && (p in req ==> Remains(req[p], Some(Dropped(over) + Keys(f.features, mask))))
    decreases f, 2
  {
    Merged(req, f, p, mask);
    if p in req && req[p].Object? {
      CompositeRemains(f, p, req[p].fields, over, mask);
    } else {
      CompositeRemains(f, p, map[], over, mask);
      assert map[] + MessageOf(f.features, mask) == MessageOf(f.features, mask);
    }
  }

  lemma {:induction false} CompositeRemains(f: Feature, p: string, before: Message, over: Option<set<string>>, mask: nat)
    requires f.features != [] && f.property != ""
    ensures Remains(Object(before + MessageOf(f.features, mask)), over)
       <==> CleanOf(f, p, over, mask) && Remains(Object(before), Some(Dropped(over) + Keys(f.features, mask)))
    decreases f, 1
  {
    MessageKeys(f.features, mask);
    SubMeaning(f, Dropped(over), mask);
    MergedRemains(before, MessageOf(f.features, mask), over);
  }

  lemma {:induction false} SubMeaning(f: Feature, dropped: set<string>, mask: nat)
    ensures (forall k | k in Keys(f.features, mask) && k !in dropped :: Clean(f.features, k, None, mask))
       <==> (forall k | k in MessageOf(f.features, mask) && k !in dropped :: NullFree(MessageOf(f.features, mask)[k]))
    decreases f, 0
  {
    MessageKeys(f.features, mask);
    forall k | k in Keys(f.features, mask)
      ensures Clean(f.features, k, None, mask) <==> NullFree(MessageOf(f.features, mask)[k])
    {
      CleanMeaning(f.features, k, None, mask);
    }
  }

  lemma MergedRemains(before: Message, sub: Message, over: Option<set<string>>)
    ensures Remains(Object(before + sub), over)
       <==> && (forall k | k in sub && k !in Dropped(over) :: NullFree(sub[k]))
            && (forall k | k in before && k !in Dropped(over) + sub.Keys :: NullFree(before[k]))
  {
    var all := before + sub;
    assert forall k | k in sub :: k in all && all[k] == sub[k];
    assert forall k | k in before && k !in sub :: k in all && all[k] == before[k];
  }

  lemma {:induction false} LeafMeaning(f: Feature, over: Option<set<string>>, mask: nat)
    requires f.features == [] && HasAccess(f.access, mask) && KnownKind(f.kind)
    ensures Remains(LeafValue(f, mask).value, over) <==> CleanLeaf(f, over, mask)
    decreases f, 0
  {
    if f.kind == "list" && f.itemType.Some? && over.None? {
      var item := f.itemType.value;
      var sub := AddFeature(map[], item, mask);
      AddFeatureKeys(map[], item, mask);
      if item.features != [] {
        ListNullFree(Object(sub));
        ItemMeaning(item, mask);
      } else if item.property in sub {
        ListNullFree(sub[item.property]);
        LeafMeaning(item, None, mask);
      } else {
        ListNullFree(Null);
      }
    }
  }

  /** The item of a list with sub-features. */
  lemma {:induction false} ItemMeaning(item: Feature, mask: nat)
    requires item.features != []
    ensures NullFree(Object(AddFeature(map[], item, mask))) <==> forall k | k in KeysOf(item, mask) :: CleanOf(item, k, None, mask)
    decreases item, 3
  {
    var sub := AddFeature(map[], item, mask);
    AddFeatureKeys(map[], item, mask);
    forall k | k in KeysOf(item, mask) ensures CleanOf(item, k, None, mask) <==> NullFree(sub[k]) {
      if item.property != "" {
        CompositeMeaning(map[], item, k, None, mask);
      } else {
        MessageKeys(item.features, mask);
        CleanMeaning(item.features, k, None, mask);
      }
    }
  }

  /** For every definition: its message holds no null iff what is left at each key is clean. */
  lemma NullFreeExactly(features: seq<Feature>, mask: nat)
    ensures NullFree(Object(MessageOf(features, mask))) <==> forall p | p in Keys(features, mask) :: Clean(features, p, None, mask)
  {
    MessageKeys(features, mask);
    forall p | p in Keys(features, mask)
      ensures Clean(features, p, None, mask) <==> NullFree(MessageOf(features, mask)[p])
    {
      CleanMeaning(features, p, None, mask);
    }
  }

  // ---------- the get request ----------

  /** Through property-less features: the properties whose access is 0 or has the get bit. */
  function Requested(features: seq<Feature>): set<string>
    decreases features
  {
    if features == [] then {} else RequestedOf(features[0]) + Requested(features[1..])
  }

  function RequestedOf(f: Feature): set<string>
    decreases f
  {
    if f.property != "" then
      if f.access == 0 || HasAccess(f.access, GET_ACCESS) then {f.property} else {}
    else Requested(f.features)
  }

  /** The features a worklist still has to look at, counted with everything below them. */
  function Work(features: seq<Feature>): nat
    decreases features
  {
    if features == [] then 0 else WorkOf(features[0]) + Work(features[1..])
  }

  function WorkOf(f: Feature): nat
    decreases f
  {
    1 + Work(f.features)
  }

  lemma {:induction false} RequestedConcat(a: seq<Feature>, b: seq<Feature>)
    ensures Requested(a + b) == Requested(a) + Requested(b)
    ensures Work(a + b) == Work(a) + Work(b)
  {
    if a == [] {
      assert a + b == b;
    } else {
      assert (a + b)[0] == a[0] && (a + b)[1..] == a[1..] + b;
      RequestedConcat(a[1..], b);
    }
  }

  /** getZigbeeGetMessage: the list grows while it is scanned. */
  method GetZigbeeGetMessage(exposes: seq<Feature>) returns (req: Message)
    ensures req.Keys == Requested(exposes)
    ensures forall p | p in req :: req[p] == Null
  {
    req := map[];
    var todo := exposes;
    var i := 0;
    while i < |todo|
      invariant 0 <= i <= |todo|
      invariant req.Keys + Requested(todo[i..]) == Requested(exposes)
      invariant forall p | p in req :: req[p] == Null
      decreases Work(todo[i..])
    {
      var field := todo[i];
      ghost var rest := todo[i + 1..];
      assert todo[i..] == [field] + rest;
      RequestedConcat([field], rest);
      assert Requested([field]) == RequestedOf(field) && Work([field]) == WorkOf(field);
      if field.property != "" {
        if field.access == 0 || HasAccess(field.access, GET_ACCESS) {
          req := req[field.property := Null];
        }
      } else if |field.features| > 0 {
        RequestedConcat(rest, field.features);
        assert (todo + field.features)[i + 1..] == rest + field.features;
        todo := todo + field.features;
      }
      i := i + 1;
    }
  }

  lemma {:induction false} RequestedAt(features: seq<Feature>, p: string)
    ensures p in Requested(features) <==> exists i :: 0 <= i < |features| && p in RequestedOf(features[i])
  {
    if features != [] {
      RequestedAt(features[1..], p);
      if i :| 0 <= i < |features[1..]| && p in RequestedOf(features[1..][i]) {
        assert features[i + 1] == features[1..][i];
      }
      if i :| 0 <= i < |features| && p in RequestedOf(features[i]) {
        if i > 0 { assert features[1..][i - 1] == features[i]; }
      }
    }
  }

  /** A node that may be asked for: without access information, or with the get bit. */
  predicate Gettable(f: Feature, p: string) {
    p != "" && f.property == p && (f.access == 0 || (f.access / 4) % 2 == 1)
  }

  ghost predicate GettableNode(features: seq<Feature>, p: string) {
    exists path :: OpenNodeAt(features, path).Some? && Gettable(OpenNodeAt(features, path).value, p)
  }

  /** What is requested: the properties of the gettable nodes that are reached through property-less nodes. */
  lemma {:induction false} RequestedMeaning(features: seq<Feature>, p: string)
    ensures p in Requested(features) <==> GettableNode(features, p)
    decreases features
  {
    RequestedAt(features, p);
    if i :| 0 <= i < |features| && p in RequestedOf(features[i]) {
      AccessBits(features[i].access);
      if features[i].property != "" {
        NodeBelow(features, i, []);
        assert OpenNodeAt(features, [i]).Some?;
      } else {
        RequestedMeaning(features[i].features, p);
        var path :| OpenNodeAt(features[i].features, path).Some? && Gettable(OpenNodeAt(features[i].features, path).value, p);
        NodeBelow(features, i, path);
        assert OpenNodeAt(features, [i] + path).Some?;
      }
    }
    if GettableNode(features, p) {
      var path :| OpenNodeAt(features, path).Some? && Gettable(OpenNodeAt(features, path).value, p);
      var i := path[0];
      AccessBits(features[i].access);
      if |path| > 1 {
        assert OpenNodeAt(features[i].features, path[1..]).Some?;
        RequestedMeaning(features[i].features, p);
      }
      assert p in RequestedOf(features[i]);
    }
  }

  lemma {:induction false} WithinRequested(xs: seq<Feature>, ys: seq<Feature>)
    requires Within(xs, ys)
    ensures Requested(xs) <= Requested(ys)
    decreases xs
  {
    if xs != [] {
      AmongRequested(xs[0], ys);
      WithinRequested(xs[1..], ys);
    }
  }

  lemma {:induction false} AmongRequested(f: Feature, ys: seq<Feature>)
    requires Among(f, ys)
    ensures RequestedOf(f) <= Requested(ys)
    decreases f, |ys|
  {
    if Like(f, ys[0]) {
      WithinRequested(f.features, ys[0].features);
    } else {
      AmongRequested(f, ys[1..]);
    }
  }

  /** The order of the features, at any depth, does not change what is requested. */
  lemma RequestedOrderFree(xs: seq<Feature>, ys: seq<Feature>)
    requires SameTrees(xs, ys)
    ensures Requested(xs) == Requested(ys)
  {
    WithinRequested(xs, ys);
    WithinRequested(ys, xs);
  }
}
