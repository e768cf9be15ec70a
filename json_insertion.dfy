/**
 * JsonParamNameInsertionPoint (BurpExtender.java): it applies each spec of a
 * bulk payload to a JSON document by walking the spec's `:`-separated path with
 * a cursor, padding lists with canaries, creating missing containers, skipping
 * any segment whose kind does not match the node under the cursor, and writing
 * the value at the last segment.
 *
 * The document is a value of `Json`; parsing and serialising are the identity on
 * it. The source mutates the parsed tree in place through the cursor `next`;
 * here the cursor is a zipper: the node in focus plus the frames of the path
 * above it, plugged back together when the walk is over.
 */
module JsonInsertion {
  import opened Host
  import opened JavaText
  import opened Payload

  datatype Json = Null | Scalar(text: string) | List(items: seq<Json>) | Map(entries: map<string, Json>)

  /** A path segment: a list index or a map key, as parseArrayIndex decides. */
  datatype Segment = Index(n: int) | Name(key: string)

  /** The insertion point's state: the request headers, the parsed body, the base value and the attack id. */
  datatype JsonInsertionPoint = JsonInsertionPoint(headers: seq<byte>, base: Json, value: string, attackID: string)

  /** What buildRequest hands back: headers plus the rebuilt body, or nothing when its fallback recursion would not stop. */
  datatype JsonMessage = Message(headers: seq<byte>, body: Json) | Diverged

  function Classify(h: Helpers, key: string): (s: Segment)
    ensures s.Name? <==> h.parseArrayIndex(key) == -1
    ensures s.Name? ==> s.key == key
    ensures s.Index? ==> s.n == h.parseArrayIndex(key)
  {
    if h.parseArrayIndex(key) != -1 then Index(h.parseArrayIndex(key)) else Name(key)
  }

  function Segments(h: Helpers, keys: seq<string>): (r: seq<Segment>)
    ensures |r| == |keys|
    ensures forall i :: 0 <= i < |keys| ==> r[i] == Classify(h, keys[i])
  {
    seq(|keys|, i requires 0 <= i < |keys| => Classify(h, keys[i]))
  }

  /**
   * makeNode: the node put at segment i. The last segment gets the value; any
   * other gets an empty container of the kind the next segment needs, and an
   * index below -1 there makes `new ArrayList(n)` throw.
   */
  function MakeNode(segs: seq<Segment>, i: nat, value: string): (r: Result<Json>)
    requires i < |segs|
    ensures i + 1 == |segs| ==> r == Ok(Scalar(value))
    ensures r.Err? <==> i + 1 < |segs| && segs[i + 1].Index? && segs[i + 1].n < 0
    ensures r.Ok? && i + 1 < |segs| ==>
              (r.value.List? <==> segs[i + 1].Index?) && (r.value == List([]) || r.value == Map(map[]))
  {
    if i + 1 == |segs| then Ok(Scalar(value))
    else match segs[i + 1]
      case Index(n) => if n < 0 then Err(NegativeCapacity) else Ok(List([]))
      case Name(_) => Ok(Map(map[]))
  }

  /** The canaries padding a list from position `from` up to, not including, `to`. */
  function Fillers(h: Helpers, from: nat, to: nat): (r: seq<Json>)
    requires from <= to
    ensures |r| == to - from
    ensures forall j :: 0 <= j < |r| ==> r[j] == Scalar(h.generateCanary(from + j))
  {
    seq(to - from, j requires 0 <= j < to - from => Scalar(h.generateCanary(from + j)))
  }

  /** One step of the path above the cursor: the siblings of the focused node. */
  datatype Frame = InList(before: seq<Json>, after: seq<Json>) | InMap(entries: map<string, Json>, key: string)

  function Fill(f: Frame, c: Json): Json
  {
    match f
    case InList(before, after) => List(before + [c] + after)
    case InMap(m, k) => Map(m[k := c])
  }

  function Within(f: Frame, r: Result<Json>): Result<Json>
  {
    match r
    case Ok(c) => Ok(Fill(f, c))
    case Err(e) => Err(e)
  }

  /** The whole tree, with c in focus under the frames of ctx (the innermost frame last). */
  function Plug(ctx: seq<Frame>, c: Json): Json
    decreases |ctx|
  {
    if ctx == [] then c else Plug(ctx[..|ctx| - 1], Fill(ctx[|ctx| - 1], c))
  }

  function PlugResult(ctx: seq<Frame>, r: Result<Json>): Result<Json>
  {
    match r
    case Ok(c) => Ok(Plug(ctx, c))
    case Err(e) => Err(e)
  }

  /** What one segment does to the cursor: stay put, descend with a frame left behind, or throw. */
  datatype Move = Skip | Descend(frame: Frame, child: Json) | Fail(fault: Fault)

  /**
   * One pass of the inner loop of buildRequest, for segment i with `node` under
   * the cursor. A kind mismatch (the caught ClassCastException) is Skip; a null
   * cursor, a bad index or a negative capacity is an exception that aborts the
   * whole call.
   */
  function Step(h: Helpers, node: Json, segs: seq<Segment>, i: nat, value: string): (r: Move)
    requires i < |segs|
    ensures node.Null? ==> r == Fail(NullPointer)
    ensures r.Skip? <==> node.Scalar? || (segs[i].Index? && node.Map?) || (segs[i].Name? && node.List?)
  {
    var last := i + 1 == |segs|;
    match segs[i]
    case Index(n) =>
      (match node
       case List(xs) =>
         if |xs| < JavaSucc(n) then
           (match MakeNode(segs, i, value)
            case Err(f) => Fail(f)
            case Ok(made) => Descend(InList(xs + Fillers(h, |xs|, n), []), made))
         else if 0 <= n < |xs| then
           (match (if xs[n] == Null || last then MakeNode(segs, i, value) else Ok(xs[n]))
            case Err(f) => Fail(f)
            case Ok(child) => Descend(InList(xs[..n], xs[n + 1..]), child))
         else Fail(IndexOutOfBounds)
       case Null => Fail(NullPointer)
       case _ => Skip)
    case Name(k) =>
      (match node
       case Map(m) =>
         (match (if k !in m || last then MakeNode(segs, i, value) else Ok(m[k]))
          case Err(f) => Fail(f)
          case Ok(child) => Descend(InMap(m, k), child))
       case Null => Fail(NullPointer)
       case _ => Skip)
  }

  /** The segment walk of buildRequest from segment i with `node` under the cursor. */
  function Walk(h: Helpers, node: Json, segs: seq<Segment>, i: nat, value: string): Result<Json>
    requires i <= |segs|
    decreases |segs| - i
  {
    if i == |segs| then Ok(node)
    else
      match Step(h, node, segs, i, value)
      case Skip => Walk(h, node, segs, i + 1, value)
      case Descend(f, child) => Within(f, Walk(h, child, segs, i + 1, value))
      case Fail(e) => Err(e)
  }

  /**
   * The root the walk starts from: the document when its kind suits the first
   * segment, an empty container of the right kind when it does not (the
   * caught MismatchedInputException), and JSON null as it is.
   */
  function Root(doc: Json, first: Segment): (r: Json)
    ensures doc.Null? ==> r == Null
    ensures first.Index? && doc.List? ==> r == doc
    ensures first.Name? && doc.Map? ==> r == doc
    ensures first.Index? && !doc.Null? && !doc.List? ==> r == List([])
    ensures first.Name? && !doc.Null? && !doc.Map? ==> r == Map(map[])
  {
    match first
    case Index(_) => if doc.List? || doc.Null? then doc else List([])
    case Name(_) => if doc.Map? || doc.Null? then doc else Map(map[])
  }

  /** One `|`-separated spec applied to the document. An empty key list makes keys.get(0) throw. */
  function ApplySpec(h: Helpers, ip: JsonInsertionPoint, doc: Json, unparsed: string): Result<Json>
  {
    var spec := ParseSpec(h, unparsed, ip.attackID, ip.value);
    var keys := Split(spec.path, ':');
    if |keys| == 0 then Err(IndexOutOfBounds)
    else
      var segs := Segments(h, keys);
      Walk(h, Root(doc, segs[0]), segs, 0, spec.value)
  }

  /** The specs applied left to right, each to the document the previous one produced. */
  function BuildBody(h: Helpers, ip: JsonInsertionPoint, doc: Json, specs: seq<string>): Result<Json>
    decreases |specs|
  {
    if specs == [] then Ok(doc)
    else
      match ApplySpec(h, ip, doc, specs[0])
      case Err(f) => Err(f)
      case Ok(d) => BuildBody(h, ip, d, specs[1..])
  }

  /**
   * buildRequest: on an exception the source calls itself once with the
   * escaped payload; when that call fails too, it would keep recursing.
   */
  function JsonRequest(h: Helpers, ip: JsonInsertionPoint, payload: string): JsonMessage
  {
    var params := Specs(payload);
    match BuildBody(h, ip, ip.base, params)
    case Ok(body) => Message(ip.headers, body)
    case Err(_) =>
      match BuildBody(h, ip, ip.base, Specs(FallbackPayload(params)))
      case Ok(body) => Message(ip.headers, body)
      case Err(_) => Diverged
  }

  // ---------------------------------------------------------------------------
  // The imperative builder

  /** The `k` loop: canaries appended for positions |xs| up to, not including, n. */
  method AppendFillers(h: Helpers, xs: seq<Json>, n: nat) returns (padded: seq<Json>)
    requires |xs| <= n
    ensures padded == xs + Fillers(h, |xs|, n)
  {
    padded := xs;
    var k := |xs|;
    while k < n
      invariant |xs| <= k <= n
      invariant padded == xs + Fillers(h, |xs|, k)
    {
      padded := padded + [Scalar(h.generateCanary(k))];
      k := k + 1;
    }
  }

  lemma PlugStep(ctx: seq<Frame>, f: Frame, r: Result<Json>)
    ensures PlugResult(ctx, Within(f, r)) == PlugResult(ctx + [f], r)
  {
    assert (ctx + [f])[..|ctx|] == ctx;
  }

  /** The body of the inner loop: one segment applied at the cursor, the list padded in place. */
  method StepInPlace(h: Helpers, next: Json, segs: seq<Segment>, i: nat, value: string) returns (move: Move)
    requires i < |segs|
    ensures move == Step(h, next, segs, i, value)
  {
    var last := i + 1 == |segs|;
    match segs[i]
    case Index(n) =>
      if next.List? {
        var xs := next.items;
        if |xs| < JavaSucc(n) {
          var padded := AppendFillers(h, xs, n);
          var made := MakeNode(segs, i, value);
          move := if made.Err? then Fail(made.fault) else Descend(InList(padded, []), made.value);
        } else if 0 <= n < |xs| {
          var child := if xs[n] == Null || last then MakeNode(segs, i, value) else Ok(xs[n]);
          move := if child.Err? then Fail(child.fault) else Descend(InList(xs[..n], xs[n + 1..]), child.value);
        } else {
          move := Fail(IndexOutOfBounds);
        }
      } else {
        move := if next.Null? then Fail(NullPointer) else Skip;
      }
    case Name(k) =>
      if next.Map? {
        var m := next.entries;
        var child := if k !in m || last then MakeNode(segs, i, value) else Ok(m[k]);
        move := if child.Err? then Fail(child.fault) else Descend(InMap(m, k), child.value);
      } else {
        move := if next.Null? then Fail(NullPointer) else Skip;
      }
  }

  /** The body of the outer loop of buildRequest: one spec walked with the cursor. */
  method ApplySpecInPlace(h: Helpers, ip: JsonInsertionPoint, doc: Json, unparsed: string) returns (r: Result<Json>)
    ensures r == ApplySpec(h, ip, doc, unparsed)
  {
    var spec := ParseSpec(h, unparsed, ip.attackID, ip.value);
    var keys := Split(spec.path, ':');
    if |keys| == 0 {
      return Err(IndexOutOfBounds);
    }
    var segs := Segments(h, keys);
    var base := Root(doc, segs[0]);
    var next := base;
    var ctx: seq<Frame> := [];
    var i := 0;
    while i < |segs|
      invariant 0 <= i <= |segs|
      invariant Walk(h, base, segs, 0, spec.value) == PlugResult(ctx, Walk(h, next, segs, i, spec.value))
      decreases |segs| - i
    {
      var move := StepInPlace(h, next, segs, i, spec.value);
      match move {
        case Fail(e) =>
          return Err(e);
        case Descend(f, child) =>
          PlugStep(ctx, f, Walk(h, child, segs, i + 1, spec.value));
          ctx := ctx + [f];
          next := child;
        case Skip =>
      }
      i := i + 1;
    }
    r := Ok(Plug(ctx, next));
  }

  /** The outer loop of buildRequest, with lastBuild carried from spec to spec. */
  method BuildBodyInPlace(h: Helpers, ip: JsonInsertionPoint, doc: Json, specs: seq<string>) returns (r: Result<Json>)
    ensures r == BuildBody(h, ip, doc, specs)
  {
    var lastBuild := doc;
    var i := 0;
    while i < |specs|
      invariant 0 <= i <= |specs|
      invariant BuildBody(h, ip, doc, specs) == BuildBody(h, ip, lastBuild, specs[i..])
    {
      assert specs[i..][0] == specs[i] && specs[i..][1..] == specs[i + 1..];
      var built := ApplySpecInPlace(h, ip, lastBuild, specs[i]);
      if built.Err? {
        return Err(built.fault);
      }
      lastBuild := built.value;
      i := i + 1;
    }
    assert specs[i..] == [];
    r := Ok(lastBuild);
  }

  method BuildRequest(h: Helpers, ip: JsonInsertionPoint, payload: string) returns (msg: JsonMessage)
    ensures msg == JsonRequest(h, ip, payload)
  {
    var params := Specs(payload);
    var body := BuildBodyInPlace(h, ip, ip.base, params);
    if body.Ok? {
      return Message(ip.headers, body.value);
    }
    var retry := BuildBodyInPlace(h, ip, ip.base, Specs(FallbackPayload(params)));
    if retry.Ok? {
      return Message(ip.headers, retry.value);
    }
    msg := Diverged;
  }
}
