/**
 * ParamNameInsertionPoint (BurpExtender.java): a bulk payload of `|`-separated
 * specs becomes one parameter per spec, each added to the request in turn by
 * the host's update-or-insert. A spec `name~encoded` sends the inverted
 * encoded value; a bare name gets a canary derived from it.
 */
module NameInsertion {
  import opened Host
  import opened JavaText
  import opened Payload

  /** The insertion point's state: base request, parameter name and value, location kind, attack tag. */
  datatype NameInsertionPoint = NameInsertionPoint(request: seq<byte>, name: string, value: string, kind: int, attackID: string)

  /** The parameter one spec turns into: name and value both go through encodeParam. */
  function NewParam(h: Helpers, ip: NameInsertionPoint, unparsed: string): (p: Param)
    ensures p.kind == ip.kind
    ensures '~' !in unparsed ==>
              p.name == h.encodeParam(unparsed)
              && p.value == h.encodeParam(h.toCanary(unparsed) + ip.attackID + ip.value)
    ensures '~' in unparsed ==>
              var n := SplitAtFirst(unparsed, '~').0;
              p.name == h.encodeParam(n) && p.value == h.encodeParam(h.invert(unparsed[|n| + 1..]))
  {
    var spec := ParseSpec(h, unparsed, ip.attackID, ip.value);
    assert '~' in unparsed ==> spec.path == SplitAtFirst(unparsed, '~').0 by {
      if '~' in unparsed {
        var rest := unparsed[|spec.path| + 1..];
        assert unparsed == spec.path + ['~'] + rest;
        SplitAtFirstOf(spec.path, rest, '~');
      }
    }
    Param(h.encodeParam(spec.path), h.encodeParam(spec.value), ip.kind)
  }

  /** The specs applied left to right, each update working on the request the previous one built. */
  function NameFold(h: Helpers, ip: NameInsertionPoint, built: seq<byte>, specs: seq<string>): seq<byte>
    decreases |specs|
  {
    if specs == [] then built
    else NameFold(h, ip, h.updateParameter(built, NewParam(h, ip, specs[0])), specs[1..])
  }

  /** buildRequest(payload, inputRequest). */
  method BuildNameRequest(h: Helpers, ip: NameInsertionPoint, payload: string, input: seq<byte>) returns (built: seq<byte>)
    ensures built == NameFold(h, ip, input, Specs(payload))
  {
    var params := Split(payload, '|');
    built := input;
    var i := 0;
    while i < |params|
      invariant i <= |params|
      invariant NameFold(h, ip, built, params[i..]) == NameFold(h, ip, input, params)
    {
      var name := params[i];
      var paramValue: string;
      var n := name;
      if '~' in name {
        var parts := SplitAtFirst(name, '~');
        n := parts.0;
        paramValue := h.invert(parts.1);
      } else {
        paramValue := h.toCanary(name) + ip.attackID + ip.value;
      }
      var newParam := Param(h.encodeParam(n), h.encodeParam(paramValue), ip.kind);
      assert newParam == NewParam(h, ip, name) by {
        if '~' in name {
          var parts := SplitAtFirst(name, '~');
          assert name == parts.0 + ['~'] + parts.1;
          assert name[|parts.0| + 1..] == parts.1;
        }
      }
      assert params[i..][1..] == params[i + 1..];
      built := h.updateParameter(built, newParam);
      i := i + 1;
    }
  }

  /** The single-argument buildRequest: the specs go into the insertion point's own request. */
  method BuildRequest(h: Helpers, ip: NameInsertionPoint, payload: string) returns (built: seq<byte>)
    ensures built == NameFold(h, ip, ip.request, Specs(payload))
  {
    built := BuildNameRequest(h, ip, payload, ip.request);
  }

  /** Applying two runs of specs one after the other is applying their concatenation. */
  lemma {:induction false} NameFoldAppend(h: Helpers, ip: NameInsertionPoint, built: seq<byte>, xs: seq<string>, ys: seq<string>)
    ensures NameFold(h, ip, built, xs + ys) == NameFold(h, ip, NameFold(h, ip, built, xs), ys)
    decreases |xs|
  {
    if xs != [] {
      var next := h.updateParameter(built, NewParam(h, ip, xs[0]));
      assert (xs + ys)[0] == xs[0] && (xs + ys)[1..] == xs[1..] + ys;
      assert NameFold(h, ip, built, xs + ys) == NameFold(h, ip, next, xs[1..] + ys);
      NameFoldAppend(h, ip, next, xs[1..], ys);
    } else {
      assert xs + ys == ys;
    }
  }

  /** A payload with no `|` is exactly one update, with the parameter its single spec describes. */
  lemma SingleSpecIsOneUpdate(h: Helpers, ip: NameInsertionPoint, payload: string, input: seq<byte>)
    requires '|' !in payload
    ensures NameFold(h, ip, input, Specs(payload)) == h.updateParameter(input, NewParam(h, ip, payload))
  {
  }

  /** A trailing `|` adds no parameter, because the split drops the trailing empty spec. */
  lemma TrailingBarAddsNothing(h: Helpers, ip: NameInsertionPoint, payload: string, input: seq<byte>)
    requires payload != ""
    ensures NameFold(h, ip, input, Specs(payload + "|")) == NameFold(h, ip, input, Specs(payload))
  {
    SplitDropsTrailingDelimiter(payload, '|');
  }

  /** A bare `|` splits into no specs, so the request comes back unchanged. */
  lemma BarOnlyLeavesRequest(h: Helpers, ip: NameInsertionPoint, input: seq<byte>)
    ensures NameFold(h, ip, input, Specs("|")) == input
  {
    SplitEmptyIffDelimitersOnly("|", '|');
  }

  /** "a|b": two updates, the first one's output being the second one's input. */
  lemma TwoSpecsChain(h: Helpers, ip: NameInsertionPoint, a: string, b: string, input: seq<byte>)
    requires '|' !in a && '|' !in b && b != ""
    ensures NameFold(h, ip, input, Specs(a + "|" + b))
            == h.updateParameter(h.updateParameter(input, NewParam(h, ip, a)), NewParam(h, ip, b))
  {
    SplitTwo(a, b, '|');
    assert a + "|" + b == a + ['|'] + b;
    var first := h.updateParameter(input, NewParam(h, ip, a));
    assert [a, b][1..] == [b] && [b][1..] == [];
    assert NameFold(h, ip, input, [a, b]) == NameFold(h, ip, first, [b]);
  }
}
