/** The composite key codec: how a (namespace, key) pair becomes a CouchDB
    document identifier, how an identifier is split back, and the bounds a
    range scan sends to the database. */
module CompositeKeys {
  import opened ByteStrings

  /** compositeKeySep: sorts below every other byte. */
  const CompositeKeySep: byte := 0x00
  /** lastKeyIndicator: replaces the separator to close a whole-namespace scan. */
  const LastKeyIndicator: byte := 0x01

  datatype CompositeKey = CompositeKey(namespace: Bytes, key: Bytes)

  /** Namespaces are chaincode names, which never contain the separator. */
  predicate SeparatorFree(ns: Bytes)
  {
    CompositeKeySep !in ns
  }

  /** constructCompositeKey: the namespace, one separator byte, then the key. */
  function ConstructCompositeKey(ns: Bytes, key: Bytes): (ck: Bytes)
    ensures |ck| == |ns| + 1 + |key|
    ensures CompositeKeySep in ck && ns <= ck
  {
    ns + [CompositeKeySep] + key
  }

  /** splitCompositeKey: cut at the FIRST separator; the key keeps any later
      separators. The source indexes the second half of the split, which does
      not exist when the identifier holds no separator. */
  function SplitCompositeKey(ck: Bytes): (parts: (Bytes, Bytes))
    requires CompositeKeySep in ck
    ensures SeparatorFree(parts.0)
    ensures ConstructCompositeKey(parts.0, parts.1) == ck
  {
    var i := FirstIndex(ck, CompositeKeySep);
    assert ck == ck[..i] + [ck[i]] + ck[i + 1..];
    (ck[..i], ck[i + 1..])
  }

  /** The identifier a CompositeKey is stored under. */
  function IdOf(k: CompositeKey): Bytes
  {
    ConstructCompositeKey(k.namespace, k.key)
  }

  /** The key decoded from an identifier. */
  function KeyOfId(id: Bytes): CompositeKey
    requires CompositeKeySep in id
  {
    var (ns, key) := SplitCompositeKey(id);
    CompositeKey(ns, key)
  }

  /** Round trip: a separator-free namespace and ANY key (separators included)
      come back unchanged. */
  lemma SplitConstruct(ns: Bytes, key: Bytes)
    requires SeparatorFree(ns)
    ensures SplitCompositeKey(ConstructCompositeKey(ns, key)) == (ns, key)
  {
    var ck := ConstructCompositeKey(ns, key);
    var i := FirstIndex(ck, CompositeKeySep);
    assert ck[|ns|] == CompositeKeySep && ck[..|ns|] == ns;
    assert ck[..i] == ns && ck[i + 1..] == key;
  }

  /** Distinct keys (with separator-free namespaces) get distinct identifiers. */
  lemma IdOfInjective(k1: CompositeKey, k2: CompositeKey)
    requires SeparatorFree(k1.namespace) && SeparatorFree(k2.namespace)
    requires IdOf(k1) == IdOf(k2)
    ensures k1 == k2
  {
    SplitConstruct(k1.namespace, k1.key);
    SplitConstruct(k2.namespace, k2.key);
  }

  lemma KeyOfIdOf(k: CompositeKey)
    requires SeparatorFree(k.namespace)
    ensures KeyOfId(IdOf(k)) == k
  {
    SplitConstruct(k.namespace, k.key);
  }

  /** The exclusive end bound of GetStateRangeScanIterator: the composite end
      key, whose trailing separator is overwritten when the end key is empty. */
  function RangeEndKey(ns: Bytes, endKey: Bytes): (ek: Bytes)
    ensures endKey == [] ==> ek == ns + [LastKeyIndicator]
    ensures endKey != [] ==> ek == ConstructCompositeKey(ns, endKey)
  {
    var ck := ConstructCompositeKey(ns, endKey);
    if endKey == [] then ck[|ck| - 1 := LastKeyIndicator] else ck
  }

  /** The end bound of a whole-namespace scan sorts above every key of the
      namespace (so also above the start bound). */
  lemma EndBoundAboveNamespace(ns: Bytes, key: Bytes)
    ensures Less(ConstructCompositeKey(ns, key), RangeEndKey(ns, []))
  {
    LessCommonPrefix(ns, [CompositeKeySep] + key, [LastKeyIndicator]);
    assert ConstructCompositeKey(ns, key) == ns + ([CompositeKeySep] + key);
  }

  /** An identifier of another separator-free namespace lies below the start
      bound or at/above the end bound of a scan of `ns`. */
  lemma {:induction false} OtherNamespaceOutside(ns: Bytes, lo: Bytes, hi: Bytes, ns2: Bytes, key2: Bytes)
    requires SeparatorFree(ns) && SeparatorFree(ns2) && ns != ns2
    requires lo != [] && lo[0] == CompositeKeySep
    requires hi == [LastKeyIndicator] || (hi != [] && hi[0] == CompositeKeySep)
    ensures Less(ConstructCompositeKey(ns2, key2), ns + lo) || !Less(ConstructCompositeKey(ns2, key2), ns + hi)
  {
    var x := ConstructCompositeKey(ns2, key2);
    if ns == [] {
      assert ns + hi == hi;
      assert x[0] == ns2[0] && ns2[0] != CompositeKeySep;
      if hi == [LastKeyIndicator] && x[0] == LastKeyIndicator {
        assert !Less(x[1..], hi[1..]);
      }
    } else if ns2 == [] {
      assert x[0] == CompositeKeySep && (ns + lo)[0] == ns[0] && ns[0] != CompositeKeySep;
    } else if ns[0] != ns2[0] {
      assert x[0] == ns2[0] && (ns + lo)[0] == ns[0] && (ns + hi)[0] == ns[0];
    } else {
      OtherNamespaceOutside(ns[1..], lo, hi, ns2[1..], key2);
      assert x[1..] == ConstructCompositeKey(ns2[1..], key2);
      assert (ns + lo)[1..] == ns[1..] + lo;
      assert (ns + hi)[1..] == ns[1..] + hi;
    }
  }

  /** What a range scan of `ns` from `startKey` to `endKey` covers: the
      identifier of (ns2, key2) lies in [start bound, end bound) exactly when
      ns2 is `ns`, key2 is not below startKey and, unless endKey is empty
      (scan to the end of the namespace), key2 is below endKey. */
  lemma ScanCoversNamespace(ns: Bytes, startKey: Bytes, endKey: Bytes, ns2: Bytes, key2: Bytes)
    requires SeparatorFree(ns) && SeparatorFree(ns2)
    ensures InRange(ConstructCompositeKey(ns2, key2), ConstructCompositeKey(ns, startKey), RangeEndKey(ns, endKey))
        <==> ns2 == ns && !Less(key2, startKey) && (endKey == [] || Less(key2, endKey))
  {
    var lo := [CompositeKeySep] + startKey;
    var hi := if endKey == [] then [LastKeyIndicator] else [CompositeKeySep] + endKey;
    assert ConstructCompositeKey(ns, startKey) == ns + lo;
    assert RangeEndKey(ns, endKey) == ns + hi;
    if ns2 == ns {
      var x := [CompositeKeySep] + key2;
      assert ConstructCompositeKey(ns2, key2) == ns + x;
      LessCommonPrefix(ns, x, lo);
      LessCommonPrefix(ns, x, hi);
      assert Less(x, lo) <==> Less(key2, startKey) by {
        assert x[1..] == key2 && lo[1..] == startKey;
      }
      if endKey != [] {
        assert x[1..] == key2 && hi[1..] == endKey;
      }
    } else {
      OtherNamespaceOutside(ns, lo, hi, ns2, key2);
    }
  }

  /** Every identifier a scan of `ns` returns begins with `ns` and the
      separator, so it splits back into namespace `ns`. */
  lemma {:induction false} InRangeHasPrefix(ns: Bytes, lo: Bytes, hi: Bytes, x: Bytes)
    requires lo != [] && lo[0] == CompositeKeySep
    requires hi == [LastKeyIndicator] || (hi != [] && hi[0] == CompositeKeySep)
    requires InRange(x, ns + lo, ns + hi)
    ensures ns + [CompositeKeySep] <= x
  {
    if ns == [] {
      assert ns + lo == lo && ns + hi == hi;
      assert x != [];
      if hi == [LastKeyIndicator] {
        assert hi[1..] == [] && !Less(x[1..], hi[1..]);
      }
      assert x[0] == CompositeKeySep;
    } else {
      assert (ns + lo)[0] == ns[0] && (ns + hi)[0] == ns[0];
      assert x != [] && x[0] == ns[0];
      assert (ns + lo)[1..] == ns[1..] + lo && (ns + hi)[1..] == ns[1..] + hi;
      InRangeHasPrefix(ns[1..], lo, hi, x[1..]);
      assert x == [x[0]] + x[1..];
    }
  }

  /** Range-scan results, split, give back the scanned namespace. */
  lemma ScanResultInNamespace(ns: Bytes, startKey: Bytes, endKey: Bytes, id: Bytes)
    requires SeparatorFree(ns)
    requires InRange(id, ConstructCompositeKey(ns, startKey), RangeEndKey(ns, endKey))
    ensures CompositeKeySep in id && SplitCompositeKey(id).0 == ns
  {
    var lo := [CompositeKeySep] + startKey;
    var hi := if endKey == [] then [LastKeyIndicator] else [CompositeKeySep] + endKey;
    assert ConstructCompositeKey(ns, startKey) == ns + lo;
    assert RangeEndKey(ns, endKey) == ns + hi;
    InRangeHasPrefix(ns, lo, hi, id);
    assert id[|ns|] == CompositeKeySep;
    var rest := id[|ns| + 1..];
    assert id == ConstructCompositeKey(ns, rest);
    SplitConstruct(ns, rest);
  }
}
