/**
 * RailsInsertionPoint (BurpExtender.java): the constructor counts, over every
 * key of the request that contains `:`, the object name before the first `:`,
 * and keeps the most frequent one as the default prefix. buildRequest then
 * prefixes every payload key that has no `:` with it, and hands each key,
 * unparsed, to the name-keyed builder.
 *
 * The frequencies sit in a HashMap whose iteration order Java leaves
 * unspecified, and ties are broken by that order (the first object met with
 * the highest count wins), so the order is a parameter: a sequence listing
 * every counted object once.
 */
module RailsInsertion {
  import opened Host
  import opened JavaText
  import opened Payload
  import opened NameInsertion

  /** The Rails insertion point: the name-keyed state plus the default prefix (Java's null is None). */
  datatype RailsInsertionPoint = RailsInsertionPoint(base: NameInsertionPoint, defaultPrefix: Option<string>)

  /** A key that contains `:` and nothing else. */
  predicate OnlyColons(key: string)
  {
    ':' in key && forall i :: 0 <= i < |key| ==> key[i] == ':'
  }

  /**
   * `key.split(":")[0]` for a key containing `:`. A key made of colons only
   * splits into nothing, and taking element 0 throws.
   */
  function ObjectOf(key: string): (r: Result<string>)
    requires ':' in key
    ensures r.Err? <==> OnlyColons(key)
    ensures r.Err? ==> r.fault == IndexOutOfBounds
    ensures r.Ok? ==> r.value == SplitAtFirst(key, ':').0 && ':' !in r.value
  {
    var parts := Split(key, ':');
    SplitEmptyIffDelimitersOnly(key, ':');
    if |parts| == 0 then Err(IndexOutOfBounds)
    else
      SplitHead(key, ':');
      Ok(parts[0])
  }

  /** One pass of the counting loop: a key with `:` adds its object, the others are passed over. */
  function CountKey(acc: Result<seq<string>>, key: string): (r: Result<seq<string>>)
    ensures acc.Err? ==> r == acc
    ensures acc.Ok? && ':' !in key ==> r == acc
  {
    match acc
    case Err(f) => Err(f)
    case Ok(objs) =>
      if ':' !in key then Ok(objs)
      else
        match ObjectOf(key)
        case Err(f) => Err(f)
        case Ok(o) => Ok(objs + [o])
  }

  /** The objects of the keys containing `:`, in key order; the first all-colon key throws. */
  function Objects(keys: seq<string>): (r: Result<seq<string>>)
    ensures r.Err? ==> r.fault == IndexOutOfBounds
    decreases |keys|
  {
    if keys == [] then Ok([])
    else CountKey(Objects(keys[..|keys| - 1]), keys[|keys| - 1])
  }

  /** Objects are counted exactly when some key contains `:`, and none of them contains `:`. */
  lemma {:induction false} ObjectsCounted(keys: seq<string>)
    requires Objects(keys).Ok?
    ensures Objects(keys).value == [] <==> forall i :: 0 <= i < |keys| ==> ':' !in keys[i]
    ensures forall o :: o in Objects(keys).value ==> ':' !in o
    decreases |keys|
  {
    if keys != [] {
      var init := keys[..|keys| - 1];
      assert forall i :: 0 <= i < |init| ==> init[i] == keys[i];
      ObjectsCounted(init);
    }
  }

  lemma ObjectsSnoc(init: seq<string>, key: string)
    ensures Objects(init + [key]) == CountKey(Objects(init), key)
  {
    assert (init + [key])[..|init|] == init;
  }

  /** The counting throws exactly when some key is made of colons only. */
  lemma {:induction false} ObjectsThrows(keys: seq<string>)
    ensures Objects(keys).Err? <==> exists i :: 0 <= i < |keys| && OnlyColons(keys[i])
    decreases |keys|
  {
    if keys != [] {
      var init := keys[..|keys| - 1];
      var last := keys[|keys| - 1];
      ObjectsThrows(init);
      assert forall i :: 0 <= i < |init| ==> init[i] == keys[i];
      if Objects(init).Err? {
        var i :| 0 <= i < |init| && OnlyColons(init[i]);
        assert OnlyColons(keys[i]);
      } else if ':' in last && ObjectOf(last).Err? {
        assert OnlyColons(keys[|keys| - 1]);
      } else {
        assert Objects(keys).Ok?;
        forall i | 0 <= i < |keys| ensures !OnlyColons(keys[i]) {
          if i < |init| {
            assert keys[i] == init[i];
          }
        }
      }
    }
  }

  /** How often an object was counted. */
  function Count(objs: seq<string>, o: string): nat
  {
    multiset(objs)[o]
  }

  /** A valid iteration order of the frequency map built from the keys: each counted object exactly once. */
  predicate IsEntryOrder(keys: seq<string>, order: seq<string>)
  {
    (forall j, k :: 0 <= j < k < |order| ==> order[j] != order[k])
    && (Objects(keys).Ok? ==>
          (forall o :: o in order ==> o in Objects(keys).value)
          && (forall o :: o in Objects(keys).value ==> o in order))
  }

  /**
   * The iteration over the entries from position i on, with the best entry so
   * far and its count: an entry replaces the best only when its count is
   * strictly greater.
   */
  function Pick(order: seq<string>, objs: seq<string>, i: nat, best: Option<string>, max: nat): Option<string>
    requires i <= |order|
    decreases |order| - i
  {
    if i == |order| then best
    else if Count(objs, order[i]) > max then Pick(order, objs, i + 1, Some(order[i]), Count(objs, order[i]))
    else Pick(order, objs, i + 1, best, max)
  }

  /** The default prefix the constructor selects, or the exception it throws. */
  function DefaultPrefix(keys: seq<string>, order: seq<string>): (r: Result<Option<string>>)
    ensures r.Err? ==> r.fault == IndexOutOfBounds
  {
    match Objects(keys)
    case Err(f) => Err(f)
    case Ok(objs) => Ok(Pick(order, objs, 0, None, 0))
  }

  /** What the scan promises from position i on, given what it held before i. */
  lemma {:induction false} PickFrom(order: seq<string>, objs: seq<string>, i: nat, best: Option<string>, max: nat)
    requires i <= |order|
    requires forall j, k :: 0 <= j < k < |order| ==> order[j] != order[k]
    requires best.None? ==> max == 0
    requires best.Some? ==> best.value in order[..i] && max == Count(objs, best.value) && max > 0
    requires forall j :: 0 <= j < i ==> Count(objs, order[j]) <= max
    requires best.Some? ==> forall j, k :: 0 <= j < k < i && order[k] == best.value ==> Count(objs, order[j]) < max
    ensures var r := Pick(order, objs, i, best, max);
            (r.None? <==> max == 0 && forall j :: i <= j < |order| ==> Count(objs, order[j]) == 0)
            && (r.Some? ==>
                  r.value in order
                  && (forall j :: 0 <= j < |order| ==> Count(objs, order[j]) <= Count(objs, r.value))
                  && (forall j, k :: 0 <= j < k < |order| && order[k] == r.value ==> Count(objs, order[j]) < Count(objs, r.value)))
    decreases |order| - i
  {
    if i < |order| {
      var c := Count(objs, order[i]);
      if c > max {
        assert order[..i + 1][i] == order[i];
        forall j, k | 0 <= j < k < i + 1 && order[k] == order[i]
          ensures Count(objs, order[j]) < c
        {
          assert k == i;
        }
        PickFrom(order, objs, i + 1, Some(order[i]), c);
      } else {
        if best.Some? {
          assert order[..i] <= order[..i + 1];
          assert best.value != order[i] by {
            var m :| 0 <= m < i && order[..i][m] == best.value;
            assert order[m] == best.value;
          }
        }
        PickFrom(order, objs, i + 1, best, max);
      }
    } else {
      if best.Some? {
        assert order[..i] == order;
      }
    }
  }

  /**
   * The selected prefix: none exactly when no key contains `:`; otherwise a
   * counted object no other object outnumbers, and the first in entry order
   * among those tied with it.
   */
  lemma DefaultPrefixIsMostFrequent(keys: seq<string>, order: seq<string>)
    requires IsEntryOrder(keys, order)
    requires Objects(keys).Ok?
    ensures var objs := Objects(keys).value;
            var r := DefaultPrefix(keys, order).value;
            (r.None? <==> forall i :: 0 <= i < |keys| ==> ':' !in keys[i])
            && (r.Some? ==>
                  r.value in objs && ':' !in r.value
                  && (forall o :: o in objs ==> Count(objs, o) <= Count(objs, r.value))
                  && (forall j, k :: 0 <= j < k < |order| && order[k] == r.value ==> Count(objs, order[j]) < Count(objs, r.value)))
  {
    var objs := Objects(keys).value;
    ObjectsCounted(keys);
    PickFrom(order, objs, 0, None, 0);
    var r := Pick(order, objs, 0, None, 0);
    if objs != [] {
      assert objs[0] in order;
      var j :| 0 <= j < |order| && order[j] == objs[0];
      assert Count(objs, order[j]) > 0;
    }
    if r.Some? {
      forall o | o in objs ensures Count(objs, o) <= Count(objs, r.value) {
        var j :| 0 <= j < |order| && order[j] == o;
      }
    }
  }

  /** The constructor throws exactly when some key containing `:` is made of colons only. */
  lemma DefaultPrefixThrows(keys: seq<string>, order: seq<string>)
    ensures DefaultPrefix(keys, order).Err? <==> exists i :: 0 <= i < |keys| && OnlyColons(keys[i])
  {
    ObjectsThrows(keys);
  }

  /** Counting one more occurrence of o: the frequency map grows by one at o. */
  lemma CountAppend(objs: seq<string>, o: string, p: string)
    ensures Count(objs + [o], p) == Count(objs, p) + (if p == o then 1 else 0)
  {
    assert multiset(objs + [o]) == multiset(objs) + multiset{o};
  }

  /** The constructor's two loops: count the objects, then scan the entries for the strictly largest count. */
  method SelectDefaultPrefix(keys: seq<string>, order: seq<string>) returns (r: Result<Option<string>>)
    requires IsEntryOrder(keys, order)
    ensures r == DefaultPrefix(keys, order)
  {
    var freq: map<string, nat> := map[];
    ghost var objs: seq<string> := [];
    var i := 0;
    while i < |keys|
      invariant i <= |keys|
      invariant Objects(keys[..i]) == Ok(objs)
      invariant forall o :: o in freq <==> o in objs
      invariant forall o :: o in freq ==> freq[o] == Count(objs, o)
    {
      var key := keys[i];
      assert keys[..i + 1] == keys[..i] + [key];
      ObjectsSnoc(keys[..i], key);
      if ':' in key {
        var obj := ObjectOf(key);
        if obj.Err? {
          ObjectsPrefixFails(keys, i + 1);
          return Err(obj.fault);
        }
        var o := obj.value;
        forall p ensures Count(objs + [o], p) == Count(objs, p) + (if p == o then 1 else 0) {
          CountAppend(objs, o, p);
        }
        freq := freq[o := (if o in freq then freq[o] else 0) + 1];
        objs := objs + [o];
      }
      i := i + 1;
    }
    assert keys[..i] == keys;
    var maxKey: Option<string> := None;
    var max: nat := 0;
    var j := 0;
    while j < |order|
      invariant j <= |order|
      invariant Pick(order, objs, j, maxKey, max) == Pick(order, objs, 0, None, 0)
    {
      assert order[j] in order;
      var value := freq[order[j]];
      if value > max {
        maxKey := Some(order[j]);
        max := value;
      }
      j := j + 1;
    }
    r := Ok(maxKey);
  }

  /** Once the keys seen so far throw, the whole key list throws. */
  lemma ObjectsPrefixFails(keys: seq<string>, n: nat)
    requires n <= |keys| && Objects(keys[..n]).Err?
    ensures Objects(keys).Err?
  {
    ObjectsThrows(keys[..n]);
    var i :| 0 <= i < n && OnlyColons(keys[..n][i]);
    assert keys[..n][i] == keys[i];
    ObjectsThrows(keys);
  }

  /**
   * The constructor: the name-keyed state plus the default prefix it selects,
   * or the exception its counting loop throws.
   */
  function NewRails(base: NameInsertionPoint, keys: seq<string>, order: seq<string>): (r: Result<RailsInsertionPoint>)
    requires IsEntryOrder(keys, order)
    ensures r.Err? <==> exists i :: 0 <= i < |keys| && OnlyColons(keys[i])
    ensures r.Err? ==> r.fault == IndexOutOfBounds
    ensures r.Ok? ==> r.value.base == base && DefaultPrefix(keys, order) == Ok(r.value.defaultPrefix)
    ensures r.Ok? ==> (r.value.defaultPrefix.None? <==> forall i :: 0 <= i < |keys| ==> ':' !in keys[i])
    ensures r.Ok? && r.value.defaultPrefix.Some? ==> ':' !in r.value.defaultPrefix.value
  {
    DefaultPrefixThrows(keys, order);
    match DefaultPrefix(keys, order)
    case Err(f) => Err(f)
    case Ok(p) =>
      DefaultPrefixIsMostFrequent(keys, order);
      Ok(RailsInsertionPoint(base, p))
  }

  /** The constructor's two loops, run through SelectDefaultPrefix. */
  method NewRailsInsertionPoint(base: NameInsertionPoint, keys: seq<string>, order: seq<string>) returns (r: Result<RailsInsertionPoint>)
    requires IsEntryOrder(keys, order)
    ensures r == NewRails(base, keys, order)
  {
    var prefix := SelectDefaultPrefix(keys, order);
    match prefix
    case Err(f) => r := Err(f);
    case Ok(p) => r := Ok(RailsInsertionPoint(base, p));
  }

  /** The key actually sent: prefixed with the default object when it names no object itself. */
  function Prefixed(prefix: Option<string>, key: string): (r: string)
    ensures prefix.None? || ':' in key ==> r == key
    ensures prefix.Some? && ':' !in key ==>
              |r| == |prefix.value| + 1 + |key| && r[|prefix.value|] == ':'
              && r[..|prefix.value|] == prefix.value && r[|prefix.value| + 1..] == key
  {
    if prefix.Some? && ':' !in key then prefix.value + ":" + key else key
  }

  /** A prefixed key reads back as the default object followed by the original key. */
  lemma PrefixedSplits(p: string, key: string)
    requires ':' !in p && ':' !in key && key != ""
    ensures Split(Prefixed(Some(p), key), ':') == [p, key]
  {
    assert p + ":" + key == p + [':'] + key;
    SplitTwo(p, key, ':');
  }

  /**
   * For an insertion point the constructor built, a bare key sent with the
   * default prefix reads back as that object and the key: the selected
   * prefix never holds a `:` of its own.
   */
  lemma RailsPrefixReadsBack(base: NameInsertionPoint, keys: seq<string>, order: seq<string>, key: string)
    requires IsEntryOrder(keys, order)
    requires NewRails(base, keys, order).Ok? && NewRails(base, keys, order).value.defaultPrefix.Some?
    requires ':' !in key && key != ""
    ensures var p := NewRails(base, keys, order).value.defaultPrefix;
            Split(Prefixed(p, key), ':') == [p.value, key]
  {
    PrefixedSplits(NewRails(base, keys, order).value.defaultPrefix.value, key);
  }

  /** The keys applied in turn; each one is unparsed and may itself stand for several `|` specs. */
  function RailsFold(h: Helpers, rp: RailsInsertionPoint, built: seq<byte>, keys: seq<string>): seq<byte>
    decreases |keys|
  {
    if keys == [] then built
    else
      var unparsed := h.unparseParam(Prefixed(rp.defaultPrefix, keys[0]));
      RailsFold(h, rp, NameFold(h, rp.base, built, Specs(unparsed)), keys[1..])
  }

  /** buildRequest of the Rails insertion point. */
  method BuildRailsRequest(h: Helpers, rp: RailsInsertionPoint, payload: string) returns (built: seq<byte>)
    ensures built == RailsFold(h, rp, rp.base.request, Specs(payload))
  {
    built := rp.base.request;
    var params := Split(payload, '|');
    var i := 0;
    while i < |params|
      invariant i <= |params|
      invariant RailsFold(h, rp, built, params[i..]) == RailsFold(h, rp, rp.base.request, params)
    {
      var key := params[i];
      if rp.defaultPrefix.Some? && ':' !in key {
        key := rp.defaultPrefix.value + ":" + key;
      }
      assert params[i..][1..] == params[i + 1..];
      built := BuildNameRequest(h, rp.base, h.unparseParam(key), built);
      i := i + 1;
    }
  }

  /**
   * With no default prefix and an unparser that leaves plain keys alone, the
   * Rails builder does what the name-keyed builder does.
   */
  lemma {:induction false} NoPrefixIsNameFold(h: Helpers, rp: RailsInsertionPoint, built: seq<byte>, keys: seq<string>)
    requires rp.defaultPrefix.None?
    requires forall k :: '|' !in k ==> h.unparseParam(k) == k
    requires forall k :: k in keys ==> '|' !in k
    ensures RailsFold(h, rp, built, keys) == NameFold(h, rp.base, built, keys)
    decreases |keys|
  {
    if keys != [] {
      var k := keys[0];
      assert k in keys;
      var next := h.updateParameter(built, NewParam(h, rp.base, k));
      assert Specs(h.unparseParam(Prefixed(rp.defaultPrefix, k))) == [k];
      assert [k][1..] == [];
      assert NameFold(h, rp.base, built, [k]) == NameFold(h, rp.base, next, []);
      assert RailsFold(h, rp, built, keys) == RailsFold(h, rp, next, keys[1..]);
      assert forall q :: q in keys[1..] ==> q in keys;
      NoPrefixIsNameFold(h, rp, next, keys[1..]);
    }
  }

  /** With the default object "user", the bare key "name" is sent as "user:name". */
  lemma PrefixExample()
    ensures Prefixed(Some("user"), "name") == "user:name"
    ensures Prefixed(Some("user"), "a:b") == "a:b"
    ensures Prefixed(None, "name") == "name"
  {
  }

  /** A key "o:rest" with o free of `:` and not empty counts towards object o. */
  lemma ObjectOfKey(o: string, rest: string)
    requires ':' !in o && o != ""
    ensures ':' in o + ":" + rest
    ensures ObjectOf(o + ":" + rest) == Ok(o)
  {
    var key := o + ":" + rest;
    assert key == o + [':'] + rest;
    assert key[|o|] == ':' && key[0] == o[0];
    SplitAtFirstOf(o, rest, ':');
  }

  /** A key o:rest adds o to the objects counted so far. */
  lemma CountKeyAdds(objs: seq<string>, o: string, rest: string)
    requires ':' !in o && o != ""
    ensures CountKey(Ok(objs), o + ":" + rest) == Ok(objs + [o])
  {
    ObjectOfKey(o, rest);
  }

  /** The objects counted so far grow by o for a key o:rest. */
  lemma ObjectsAppendKey(keys: seq<string>, objs: seq<string>, o: string, rest: string)
    requires Objects(keys) == Ok(objs) && ':' !in o && o != ""
    ensures Objects(keys + [o + ":" + rest]) == Ok(objs + [o])
  {
    ObjectsSnoc(keys, o + ":" + rest);
    CountKeyAdds(objs, o, rest);
  }

  lemma LastSplit<T>(s: seq<T>)
    requires |s| > 0
    ensures s == s[..|s| - 1] + [s[|s| - 1]]
  {
  }

  /** Keys of the form o:rest, with each o non-empty and free of `:`, count exactly their objects, in order. */
  lemma {:induction false} ObjectsOfPrefixedKeys(keys: seq<string>, objs: seq<string>, rests: seq<string>)
    requires |keys| == |objs| == |rests|
    requires forall i :: 0 <= i < |keys| ==> ':' !in objs[i] && objs[i] != "" && keys[i] == objs[i] + ":" + rests[i]
    ensures Objects(keys) == Ok(objs)
  {
    var n := |keys|;
    if n > 0 {
      var ks, os, rs := keys[..n - 1], objs[..n - 1], rests[..n - 1];
      assert forall i :: 0 <= i < |ks| ==> ':' !in os[i] && os[i] != "" && ks[i] == os[i] + ":" + rs[i] by {
        forall i | 0 <= i < |ks| ensures ':' !in os[i] && os[i] != "" && ks[i] == os[i] + ":" + rs[i] {
          assert ks[i] == keys[i] && os[i] == objs[i] && rs[i] == rests[i];
        }
      }
      ObjectsOfPrefixedKeys(ks, os, rs);
      ObjectsAppendKey(ks, os, objs[n - 1], rests[n - 1]);
      LastSplit(keys);
      LastSplit(objs);
    }
  }

  /** The objects counted for the keys o1:a, o1:b, o2:x, o1:c and a plain key. */
  lemma ObjectsOfMajorityKeys(o1: string, o2: string, a: string, b: string, x: string, c: string, plain: string)
    requires ':' !in o1 && ':' !in o2 && o1 != "" && o2 != "" && ':' !in plain
    ensures Objects([o1 + ":" + a, o1 + ":" + b, o2 + ":" + x, o1 + ":" + c, plain]) == Ok([o1, o1, o2, o1])
  {
    var prefixed := [o1 + ":" + a, o1 + ":" + b, o2 + ":" + x, o1 + ":" + c];
    ObjectsOfPrefixedKeys(prefixed, [o1, o1, o2, o1], [a, b, x, c]);
    ObjectsSnoc(prefixed, plain);
    assert prefixed + [plain] == [o1 + ":" + a, o1 + ":" + b, o2 + ":" + x, o1 + ":" + c, plain];
  }

  /**
   * Keys o1:a, o1:b, o2:x, o1:c and a plain key: three under o1 and one under
   * o2 select o1, whatever the entry order.
   */
  lemma MajorityObjectSelected(o1: string, o2: string, a: string, b: string, x: string, c: string, plain: string, order: seq<string>)
    requires ':' !in o1 && ':' !in o2 && o1 != "" && o2 != "" && o1 != o2 && ':' !in plain
    requires IsEntryOrder([o1 + ":" + a, o1 + ":" + b, o2 + ":" + x, o1 + ":" + c, plain], order)
    ensures DefaultPrefix([o1 + ":" + a, o1 + ":" + b, o2 + ":" + x, o1 + ":" + c, plain], order) == Ok(Some(o1))
  {
    var keys := [o1 + ":" + a, o1 + ":" + b, o2 + ":" + x, o1 + ":" + c, plain];
    ObjectsOfMajorityKeys(o1, o2, a, b, x, c, plain);
    var objs := [o1, o1, o2, o1];
    assert Count(objs, o1) == 3 && Count(objs, o2) == 1 by {
      assert multiset(objs) == multiset{o1, o1, o1, o2};
    }
    assert ':' in keys[0] by {
      assert keys[0][|o1|] == ':';
    }
    DefaultPrefixIsMostFrequent(keys, order);
    var r := DefaultPrefix(keys, order).value;
    assert r.Some?;
    assert r.value in objs;
    assert Count(objs, o1) <= Count(objs, r.value);
    assert r.value != o2;
  }
}
