/**
 * What the segment walk of JsonParamNameInsertionPoint.buildRequest
 * guarantees: which entries a segment may touch, when lists are padded, what a
 * kind mismatch does, that the value lands at the end of the path, and how the
 * whole-call fallback behaves.
 */
module JsonProperties {
  import opened Host
  import opened JavaText
  import opened Payload
  import opened JsonInsertion

  /** The empty container makeNode creates ahead of segment s. */
  function EmptyFor(s: Segment): Json
  {
    if s.Index? then List([]) else Map(map[])
  }

  // ---------------------------------------------------------------------------
  // Map segments

  /** A name segment at a map adds or replaces its own key and leaves every other key as it was. */
  lemma NameSegmentTouchesOnlyItsKey(h: Helpers, m: map<string, Json>, segs: seq<Segment>, i: nat, value: string)
    requires i < |segs| && segs[i].Name?
    requires Walk(h, Map(m), segs, i, value).Ok?
    ensures var t := Walk(h, Map(m), segs, i, value).value;
            t.Map? && t.entries.Keys == m.Keys + {segs[i].key}
            && forall j :: j in m && j != segs[i].key ==> t.entries[j] == m[j]
  {
  }

  /** An existing key at a non-final segment is descended into with its value kept: the rest of the path edits it. */
  lemma ExistingKeyIsDescended(h: Helpers, m: map<string, Json>, segs: seq<Segment>, i: nat, value: string)
    requires i + 1 < |segs| && segs[i].Name? && segs[i].key in m
    ensures var r := Walk(h, Map(m), segs, i, value);
            var c := Walk(h, m[segs[i].key], segs, i + 1, value);
            r.Ok? == c.Ok? && (r.Ok? ==> r.value == Map(m[segs[i].key := c.value]))
            && (r.Err? ==> r == c)
  {
  }

  /** A missing key at a non-final segment gets a fresh container of the kind the next segment needs. */
  lemma MissingKeyGetsEmptyContainer(h: Helpers, m: map<string, Json>, segs: seq<Segment>, i: nat, value: string)
    requires i + 1 < |segs| && segs[i].Name? && segs[i].key !in m
    requires !(segs[i + 1].Index? && segs[i + 1].n < 0)
    ensures var r := Walk(h, Map(m), segs, i, value);
            var c := Walk(h, EmptyFor(segs[i + 1]), segs, i + 1, value);
            r.Ok? == c.Ok? && (r.Ok? ==> r.value == Map(m[segs[i].key := c.value]))
  {
  }

  /** Only the final segment overwrites: there the key is set to the value, whatever it held. */
  lemma FinalNameSegmentSets(h: Helpers, m: map<string, Json>, segs: seq<Segment>, value: string)
    requires |segs| > 0 && segs[|segs| - 1].Name?
    ensures Walk(h, Map(m), segs, |segs| - 1, value) == Ok(Map(m[segs[|segs| - 1].key := Scalar(value)]))
  {
  }

  /** A JSON null reached under a key at a non-final segment is a NullPointerException at the next one. */
  lemma NullUnderKeyThrows(h: Helpers, m: map<string, Json>, segs: seq<Segment>, i: nat, value: string)
    requires i + 1 < |segs| && segs[i].Name? && segs[i].key in m && m[segs[i].key] == Null
    ensures Walk(h, Map(m), segs, i, value) == Err(NullPointer)
  {
    assert Walk(h, Null, segs, i + 1, value) == Err(NullPointer);
  }

  // ---------------------------------------------------------------------------
  // List segments

  /**
   * An index at or past the end pads the list with canaries for the positions
   * in between and appends the new node, which ends up at the index: the list
   * then has index + 1 elements and its old elements are kept.
   */
  lemma IndexPastEndPads(h: Helpers, xs: seq<Json>, segs: seq<Segment>, i: nat, value: string)
    requires i < |segs| && segs[i].Index? && |xs| <= segs[i].n < IntMax
    requires Walk(h, List(xs), segs, i, value).Ok?
    ensures var t := Walk(h, List(xs), segs, i, value).value;
            var n := segs[i].n;
            t.List? && |t.items| == n + 1 && t.items[..|xs|] == xs
            && (forall j :: |xs| <= j < n ==> t.items[j] == Scalar(h.generateCanary(j)))
            && MakeNode(segs, i, value).Ok?
            && Walk(h, MakeNode(segs, i, value).value, segs, i + 1, value) == Ok(t.items[n])
  {
    var n := segs[i].n;
    var made := MakeNode(segs, i, value).value;
    var padded := xs + Fillers(h, |xs|, n);
    var c := Walk(h, made, segs, i + 1, value).value;
    var t := Walk(h, List(xs), segs, i, value).value;
    assert t == List(padded + [c] + []);
    forall j | |xs| <= j < n ensures t.items[j] == Scalar(h.generateCanary(j)) {
      assert t.items[j] == Fillers(h, |xs|, n)[j - |xs|];
    }
  }

  /**
   * An index inside the list never pads it: the length stays, every other
   * element is kept, an existing non-null element at a non-final segment is
   * descended into, a null one is replaced by a fresh container, and the final
   * segment sets the value.
   */
  lemma IndexInRangeKeepsLength(h: Helpers, xs: seq<Json>, segs: seq<Segment>, i: nat, value: string)
    requires i < |segs| && segs[i].Index? && 0 <= segs[i].n < |xs|
    requires Walk(h, List(xs), segs, i, value).Ok?
    ensures var t := Walk(h, List(xs), segs, i, value).value;
            var n := segs[i].n;
            t.List? && |t.items| == |xs|
            && (forall j :: 0 <= j < |xs| && j != n ==> t.items[j] == xs[j])
            && (i + 1 == |segs| ==> t.items[n] == Scalar(value))
            && (i + 1 < |segs| && xs[n] != Null ==> Walk(h, xs[n], segs, i + 1, value) == Ok(t.items[n]))
            && (i + 1 < |segs| && xs[n] == Null ==> Walk(h, EmptyFor(segs[i + 1]), segs, i + 1, value) == Ok(t.items[n]))
  {
    var n := segs[i].n;
    var t := Walk(h, List(xs), segs, i, value).value;
    var child := if xs[n] == Null || i + 1 == |segs| then MakeNode(segs, i, value).value else xs[n];
    var c := Walk(h, child, segs, i + 1, value).value;
    assert t == List(xs[..n] + [c] + xs[n + 1..]);
    forall j | 0 <= j < |xs| && j != n ensures t.items[j] == xs[j] {
      if j < n {
        assert t.items[j] == xs[..n][j];
      } else {
        assert t.items[j] == xs[n + 1..][j - n - 1];
      }
    }
  }

  /** An index below zero, or Integer.MAX_VALUE where `index + 1` wraps, is an IndexOutOfBoundsException. */
  lemma BadIndexThrows(h: Helpers, xs: seq<Json>, segs: seq<Segment>, i: nat, value: string)
    requires i < |segs| && segs[i].Index?
    requires segs[i].n < 0 || (segs[i].n == IntMax && |xs| <= IntMax)
    ensures Walk(h, List(xs), segs, i, value) == Err(IndexOutOfBounds)
  {
  }

  // ---------------------------------------------------------------------------
  // Mismatches and null

  /** Whether segment s does not fit the node under the cursor (the cast would fail). */
  predicate Mismatch(node: Json, s: Segment)
  {
    node.Scalar? || (s.Index? && node.Map?) || (s.Name? && node.List?)
  }

  /** A mismatched segment is skipped: the cursor stays on the same node for the next segment. */
  lemma MismatchSkipsSegment(h: Helpers, node: Json, segs: seq<Segment>, i: nat, value: string)
    requires i < |segs| && Mismatch(node, segs[i])
    ensures Walk(h, node, segs, i, value) == Walk(h, node, segs, i + 1, value)
  {
  }

  /** Every segment is a mismatch for a scalar, so once the cursor is on a scalar nothing more changes. */
  lemma {:induction false} ScalarAbsorbsPath(h: Helpers, s: string, segs: seq<Segment>, i: nat, value: string)
    requires i <= |segs|
    ensures Walk(h, Scalar(s), segs, i, value) == Ok(Scalar(s))
    decreases |segs| - i
  {
    if i < |segs| {
      ScalarAbsorbsPath(h, s, segs, i + 1, value);
    }
  }

  /** A null cursor throws at the next segment, whatever it is. */
  lemma NullCursorThrows(h: Helpers, segs: seq<Segment>, i: nat, value: string)
    requires i < |segs|
    ensures Walk(h, Null, segs, i, value) == Err(NullPointer)
  {
  }

  // ---------------------------------------------------------------------------
  // The value lands at the end of the path

  /**
   * Whether no segment from i mismatches the node it meets. Nodes the walk
   * creates always fit, so only existing nodes decide.
   */
  predicate Fits(node: Json, segs: seq<Segment>, i: nat)
    requires i <= |segs|
    decreases |segs| - i
  {
    if i == |segs| then true
    else
      var last := i + 1 == |segs|;
      match segs[i]
      case Index(n) =>
        node.List? && (0 <= n < |node.items| && node.items[n] != Null && !last ==> Fits(node.items[n], segs, i + 1))
      case Name(k) =>
        node.Map? && (k in node.entries && !last ==> Fits(node.entries[k], segs, i + 1))
  }

  /** The node reached by following segments i.. through existing entries. */
  function Lookup(node: Json, segs: seq<Segment>, i: nat): Option<Json>
    requires i <= |segs|
    decreases |segs| - i
  {
    if i == |segs| then Some(node)
    else
      match segs[i]
      case Index(n) =>
        if node.List? && 0 <= n < |node.items| then Lookup(node.items[n], segs, i + 1) else None
      case Name(k) =>
        if node.Map? && k in node.entries then Lookup(node.entries[k], segs, i + 1) else None
  }

  lemma MadeNodeFits(segs: seq<Segment>, i: nat, value: string)
    requires i + 1 < |segs| && MakeNode(segs, i, value).Ok?
    ensures Fits(MakeNode(segs, i, value).value, segs, i + 1)
  {
  }

  /** When the path fits the document, following it in the result reaches the value. */
  lemma {:induction false} WalkWritesValue(h: Helpers, node: Json, segs: seq<Segment>, i: nat, value: string)
    requires i < |segs| && Fits(node, segs, i)
    requires Walk(h, node, segs, i, value).Ok?
    ensures Lookup(Walk(h, node, segs, i, value).value, segs, i) == Some(Scalar(value))
    decreases |segs| - i
  {
    var last := i + 1 == |segs|;
    match Step(h, node, segs, i, value) {
      case Descend(f, child) =>
        var c := Walk(h, child, segs, i + 1, value).value;
        if last {
          assert child == Scalar(value);
        } else {
          if MakeNode(segs, i, value).Ok? {
            MadeNodeFits(segs, i, value);
          }
          assert Fits(child, segs, i + 1);
          WalkWritesValue(h, child, segs, i + 1, value);
        }
        if segs[i].Index? {
          var n, xs := segs[i].n, node.items;
          if |xs| < JavaSucc(n) {
            var padded := xs + Fillers(h, |xs|, n);
            assert Walk(h, node, segs, i, value).value == List(padded + [c] + []);
            assert (padded + [c] + [])[n] == c;
          } else {
            assert Walk(h, node, segs, i, value).value == List(xs[..n] + [c] + xs[n + 1..]);
            assert (xs[..n] + [c] + xs[n + 1..])[n] == c;
          }
        }
      case Skip =>
        assert false;
      case Fail(_) =>
    }
  }

  // ---------------------------------------------------------------------------
  // Whole calls

  /** Specs are applied left to right: a payload's specs act on the document its earlier specs produced. */
  lemma {:induction false} BuildBodyAppend(h: Helpers, ip: JsonInsertionPoint, doc: Json, a: seq<string>, b: seq<string>)
    ensures BuildBody(h, ip, doc, a + b) ==
            match BuildBody(h, ip, doc, a)
            case Ok(d) => BuildBody(h, ip, d, b)
            case Err(f) => Err(f)
    decreases |a|
  {
    if a != [] {
      assert (a + b)[0] == a[0] && (a + b)[1..] == a[1..] + b;
      match ApplySpec(h, ip, doc, a[0])
      case Ok(d) => BuildBodyAppend(h, ip, d, a[1..], b);
      case Err(_) =>
    } else {
      assert a + b == b;
    }
  }

  /**
   * On a JSON null body every spec throws: `keys.get(0)` is out of bounds for a
   * path of colons only, and any other path meets the null cursor.
   */
  lemma ApplySpecOnNullThrows(h: Helpers, ip: JsonInsertionPoint, unparsed: string)
    ensures var r := ApplySpec(h, ip, Null, unparsed);
            var keys := Split(ParseSpec(h, unparsed, ip.attackID, ip.value).path, ':');
            r.Err? && (keys == [] ==> r.fault == IndexOutOfBounds) && (keys != [] ==> r.fault == NullPointer)
  {
    var spec := ParseSpec(h, unparsed, ip.attackID, ip.value);
    var keys := Split(spec.path, ':');
    if |keys| > 0 {
      NullCursorThrows(h, Segments(h, keys), 0, spec.value);
    }
  }

  /**
   * A body that is JSON null makes every spec throw, the escaped retry too, so
   * for any payload with at least one spec the source recurses until the stack
   * overflows; the model reports Diverged.
   */
  lemma NullDocumentDiverges(h: Helpers, ip: JsonInsertionPoint, payload: string)
    requires ip.base == Null && Specs(payload) != []
    ensures JsonRequest(h, ip, payload) == Diverged
  {
    var params := Specs(payload);
    ApplySpecOnNullThrows(h, ip, params[0]);
    var fb := FallbackPayload(params);
    FallbackIsOneFlatSpec(h, payload, ip.attackID, ip.value);
    ApplySpecOnNullThrows(h, ip, fb);
  }

  /** A payload with no spec leaves even a JSON null body as it is: the loop never runs. */
  lemma NullDocumentWithoutSpecs(h: Helpers, ip: JsonInsertionPoint, payload: string)
    requires Specs(payload) == []
    ensures JsonRequest(h, ip, payload) == Message(ip.headers, ip.base)
  {
  }

  /**
   * For any other body, the escaped retry always builds when its single path
   * reads as a key: it sets one top-level key of an object.
   */
  lemma FallbackRecovers(h: Helpers, ip: JsonInsertionPoint, payload: string)
    requires ip.base != Null
    requires var fb := FallbackPayload(Specs(payload));
             h.parseArrayIndex(ParseSpec(h, fb, ip.attackID, ip.value).path) == -1
    ensures JsonRequest(h, ip, payload).Message?
  {
    var params := Specs(payload);
    var fb := FallbackPayload(params);
    FallbackIsOneFlatSpec(h, payload, ip.attackID, ip.value);
    var spec := ParseSpec(h, fb, ip.attackID, ip.value);
    var segs := Segments(h, [spec.path]);
    assert segs == [Name(spec.path)];
    var root := Root(ip.base, segs[0]);
    assert root.Map?;
    assert Step(h, root, segs, 0, spec.value) == Descend(InMap(root.entries, spec.path), Scalar(spec.value));
    assert Walk(h, Scalar(spec.value), segs, 1, spec.value) == Ok(Scalar(spec.value));
    assert ApplySpec(h, ip, ip.base, fb).Ok?;
    assert [fb][1..] == [];
    assert BuildBody(h, ip, ip.base, [fb]).Ok?;
  }

  // ---------------------------------------------------------------------------
  // Worked examples

  /** A spec "k1:k2" with no `~` whose parts both read as keys walks two name segments. */
  lemma TwoKeySpec(h: Helpers, ip: JsonInsertionPoint, doc: Json, k1: string, k2: string)
    requires ':' !in k1 && ':' !in k2 && '~' !in k1 && '~' !in k2 && k2 != ""
    requires h.parseArrayIndex(k1) == -1 && h.parseArrayIndex(k2) == -1
    ensures var p := k1 + [':'] + k2;
            ApplySpec(h, ip, doc, p)
            == Walk(h, Root(doc, Name(k1)), [Name(k1), Name(k2)], 0, CanaryValue(h, p, ip.attackID, ip.value))
  {
    var p := k1 + [':'] + k2;
    assert '~' !in p;
    SplitTwo(k1, k2, ':');
    assert Segments(h, [k1, k2]) == [Name(k1), Name(k2)];
  }

  /** Two name segments into an object whose first key holds an object: the second key is set inside it. */
  lemma TwoKeyWalk(h: Helpers, m: map<string, Json>, inner: map<string, Json>, k1: string, k2: string, v: string)
    requires k1 in m && m[k1] == Map(inner)
    ensures Walk(h, Map(m), [Name(k1), Name(k2)], 0, v) == Ok(Map(m[k1 := Map(inner[k2 := Scalar(v)])]))
  {
    var segs := [Name(k1), Name(k2)];
    assert Step(h, Map(inner), segs, 1, v) == Descend(InMap(inner, k2), Scalar(v));
    assert Walk(h, Scalar(v), segs, 2, v) == Ok(Scalar(v));
    assert Walk(h, Map(inner), segs, 1, v) == Ok(Map(inner[k2 := Scalar(v)]));
    assert Step(h, Map(m), segs, 0, v) == Descend(InMap(m, k1), Map(inner));
  }

  /** {a: {b: x}} with the path a:c keeps b and adds c inside the inner object. */
  lemma NestedKeyExample(h: Helpers, ip: JsonInsertionPoint, a: string, b: string, c: string, x: Json)
    requires ':' !in a && ':' !in c && '~' !in a && '~' !in c && c != ""
    requires h.parseArrayIndex(a) == -1 && h.parseArrayIndex(c) == -1
    ensures var p := a + [':'] + c;
            var v := CanaryValue(h, p, ip.attackID, ip.value);
            ApplySpec(h, ip, Map(map[a := Map(map[b := x])]), p)
            == Ok(Map(map[a := Map(map[b := x, c := Scalar(v)])]))
  {
    var p := a + [':'] + c;
    var v := CanaryValue(h, p, ip.attackID, ip.value);
    var inner := map[b := x];
    var doc := map[a := Map(inner)];
    TwoKeySpec(h, ip, Map(doc), a, c);
    TwoKeyWalk(h, doc, inner, a, c, v);
    assert doc[a := Map(inner[c := Scalar(v)])] == map[a := Map(map[b := x, c := Scalar(v)])];
  }

  /** An index then a key from an empty list: the list grows to hold one object with that key. */
  lemma IndexKeyWalk(h: Helpers, k: string, v: string)
    ensures Walk(h, List([]), [Index(0), Name(k)], 0, v) == Ok(List([Map(map[k := Scalar(v)])]))
  {
    var segs := [Index(0), Name(k)];
    assert [] + Fillers(h, 0, 0) == [];
    assert MakeNode(segs, 0, v) == Ok(Map(map[]));
    assert Step(h, List([]), segs, 0, v) == Descend(InList([], []), Map(map[]));
    assert Step(h, Map(map[]), segs, 1, v) == Descend(InMap(map[], k), Scalar(v));
    assert Walk(h, Scalar(v), segs, 2, v) == Ok(Scalar(v));
    assert Walk(h, Map(map[]), segs, 1, v) == Ok(Map(map[k := Scalar(v)]));
    assert [] + [Map(map[k := Scalar(v)])] + [] == [Map(map[k := Scalar(v)])];
  }

  /** {} with the path 0:x becomes a one-element list holding {"x": value}. */
  lemma IndexIntoObjectExample(h: Helpers, ip: JsonInsertionPoint)
    requires h.parseArrayIndex("0") == 0 && h.parseArrayIndex("x") == -1
    ensures var v := CanaryValue(h, "0:x", ip.attackID, ip.value);
            ApplySpec(h, ip, Map(map[]), "0:x") == Ok(List([Map(map["x" := Scalar(v)])]))
  {
    var v := CanaryValue(h, "0:x", ip.attackID, ip.value);
    var p := "0:x";
    assert p == "0" + [':'] + "x";
    assert '~' !in p;
    assert ParseSpec(h, p, ip.attackID, ip.value) == MutationSpec(p, v);
    SplitTwo("0", "x", ':');
    assert Segments(h, ["0", "x"]) == [Index(0), Name("x")];
    assert Root(Map(map[]), Index(0)) == List([]);
    IndexKeyWalk(h, "x", v);
  }
}
