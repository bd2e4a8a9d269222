/**
 The key under which created device types are remembered (pkg/devicerepo/devicemanager.go,
 getDtVendorModelKey), and which (vendor, model) pairs it tells apart.
 */
module TypeKeys {
  import opened Common

  const VENDOR := "senergy/zigbee-vendor"
  const MODEL := "senergy/zigbee-model"
  const SEPARATOR := ";model="

  /** The value of the last attribute with that key, or Go's zero value. */
  function LastValue(attributes: seq<Attribute>, key: string): string {
    if attributes == [] then ""
    else if attributes[|attributes| - 1].key == key then attributes[|attributes| - 1].value
    else LastValue(attributes[..|attributes| - 1], key)
  }

  function Printed(vendor: string, model: string): string {
    "vendor=" + vendor + SEPARATOR + model
  }

  function KeyOf(attributes: seq<Attribute>): string {
    Printed(LastValue(attributes, VENDOR), LastValue(attributes, MODEL))
  }

  /** The last attribute with the key counts; without one the value is empty. */
  lemma {:induction false} LastValueMeaning(attributes: seq<Attribute>, key: string)
    ensures (forall i | 0 <= i < |attributes| :: attributes[i].key != key) ==> LastValue(attributes, key) == ""
    ensures (exists i :: 0 <= i < |attributes| && attributes[i].key == key) ==>
              exists i :: 0 <= i < |attributes| && attributes[i].key == key && LastValue(attributes, key) == attributes[i].value
                          && forall j | i < j < |attributes| :: attributes[j].key != key
  {
    if attributes != [] && attributes[|attributes| - 1].key != key {
      var init := attributes[..|attributes| - 1];
      LastValueMeaning(init, key);
      if i :| 0 <= i < |attributes| && attributes[i].key == key {
        assert init[i].key == key;
        var k :| 0 <= k < |init| && init[k].key == key && LastValue(init, key) == init[k].value
                 && forall j | k < j < |init| :: init[j].key != key;
        assert attributes[k] == init[k];
      }
    }
  }

  method GetDtVendorModelKey(attributes: seq<Attribute>) returns (key: string)
    ensures key == KeyOf(attributes)
    ensures key == "vendor=" + LastValue(attributes, "senergy/zigbee-vendor") + ";model=" + LastValue(attributes, "senergy/zigbee-model")
  {
    var attrMap: map<string, string> := map[];
    for i := 0 to |attributes|
      invariant forall k: string :: LastValue(attributes[..i], k) == if k in attrMap then attrMap[k] else ""
    {
      assert attributes[..i + 1][..i] == attributes[..i];
      attrMap := attrMap[attributes[i].key := attributes[i].value];
    }
    assert attributes[..|attributes|] == attributes;
    var vendor := if VENDOR in attrMap then attrMap[VENDOR] else "";
    var model := if MODEL in attrMap then attrMap[MODEL] else "";
    key := "vendor=" + vendor + ";model=" + model;
  }

  ghost predicate SeparatorAt(s: string, i: nat) {
    i + |SEPARATOR| <= |s| && s[i..i + |SEPARATOR|] == SEPARATOR
  }

  ghost predicate HasSeparator(s: string) {
    exists i: nat :: SeparatorAt(s, i)
  }

  lemma SameRest(v: string, m: string, w: string, n: string)
    requires Printed(v, m) == Printed(w, n)
    ensures v + SEPARATOR + m == w + SEPARATOR + n
  {
    var a, b := v + SEPARATOR + m, w + SEPARATOR + n;
    assert Printed(v, m) == "vendor=" + a && Printed(w, n) == "vendor=" + b;
    assert ("vendor=" + a)[7..] == a && ("vendor=" + b)[7..] == b;
  }

  /** The separator cannot overlap itself: it has one semicolon. */
  lemma NoSelfOverlap(v: string, m: string, w: string, n: string)
    requires v + SEPARATOR + m == w + SEPARATOR + n && |v| < |w|
    ensures |v| + |SEPARATOR| <= |w|
  {
    var s := v + SEPARATOR + m;
    assert s[|w|] == (w + SEPARATOR + n)[|w|] == SEPARATOR[0] == ';';
    if |w| < |v| + |SEPARATOR| {
      assert s[|w|] == SEPARATOR[|w| - |v|];
      assert forall k | 0 < k < |SEPARATOR| :: SEPARATOR[k] != ';';
      assert false;
    }
  }

  /** If two pairs share a key, the longer vendor and the other model hold a separator. */
  lemma Overlap(v: string, m: string, w: string, n: string)
    requires Printed(v, m) == Printed(w, n) && |v| < |w|
    ensures HasSeparator(w) && HasSeparator(m)
  {
    SameRest(v, m, w, n);
    NoSelfOverlap(v, m, w, n);
    var s := v + SEPARATOR + m;
    assert w == s[..|w|] && s[|v|..|v| + |SEPARATOR|] == SEPARATOR;
    assert SeparatorAt(w, |v|);
    var at := |w| - |v| - |SEPARATOR|;
    assert m == s[|v| + |SEPARATOR|..] && (w + SEPARATOR + n)[|w|..|w| + |SEPARATOR|] == SEPARATOR;
    assert SeparatorAt(m, at);
  }

  /** The printed key is injective on the pairs whose vendor holds no separator. */
  lemma KeyInjective(v: string, m: string, w: string, n: string)
    requires !HasSeparator(v) && !HasSeparator(w)
    requires Printed(v, m) == Printed(w, n)
    ensures v == w && m == n
  {
    SameLength(v, m, w, n);
  }

  lemma SameLength(v: string, m: string, w: string, n: string)
    requires Printed(v, m) == Printed(w, n)
    requires !HasSeparator(v) && (!HasSeparator(w) || !HasSeparator(m))
    ensures v == w && m == n
  {
    if |v| < |w| {
      Overlap(v, m, w, n);
      assert false;
    } else if |w| < |v| {
      Overlap(w, n, v, m);
      assert false;
    } else {
      var prefix := 7 + |v|;
      assert Printed(v, m)[7..prefix] == v && Printed(w, n)[7..prefix] == w;
      assert Printed(v, m)[prefix + 7..] == m && Printed(w, n)[prefix + 7..] == n;
    }
  }

  ghost predicate Unambiguous(v: string, m: string) {
    forall w: string, n: string :: Printed(w, n) == Printed(v, m) ==> w == v && n == m
  }

  /** A pair has its key for itself iff neither part holds the separator. */
  lemma KeyUnambiguousIff(v: string, m: string)
    ensures Unambiguous(v, m) <==> !HasSeparator(v) && !HasSeparator(m)
  {
    if HasSeparator(v) {
      var i: nat :| SeparatorAt(v, i);
      var a, b := v[..i], v[i + |SEPARATOR|..];
      assert v == a + SEPARATOR + b;
      assert Printed(a, b + SEPARATOR + m) == Printed(v, m);
    } else if HasSeparator(m) {
      var i: nat :| SeparatorAt(m, i);
      var a, b := m[..i], m[i + |SEPARATOR|..];
      assert m == a + SEPARATOR + b;
      assert Printed(v + SEPARATOR + a, b) == Printed(v, m);
    } else {
      forall w: string, n: string | Printed(w, n) == Printed(v, m) ensures w == v && n == m {
        SameLength(v, m, w, n);
      }
    }
  }

  /** Two different products that share a key. */
  lemma KeysCollide()
    ensures Printed("a;model=b", "c") == Printed("a", "b;model=c")
  {
    assert "a;model=b" == "a" + SEPARATOR + "b";
    assert "b;model=c" == "b" + SEPARATOR + "c";
  }
}
