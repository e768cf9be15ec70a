/**
 * The payload grammar shared by the name-keyed and JSON insertion points
 * (BurpExtender.java, ParamNameInsertionPoint and JsonParamNameInsertionPoint):
 * a payload is cut at `|` into specs; a spec containing `~` is cut at its first
 * `~` into a path and an already encoded value to invert; any other spec is a
 * path whose value is a fresh canary derived from it.
 */
module Payload {
  import opened Host
  import opened JavaText

  /** One mutation: the path text and the value to place there. */
  datatype MutationSpec = MutationSpec(path: string, value: string)

  /** calculateValue: the canary for a path, tagged with the attack and the base value. */
  function CanaryValue(h: Helpers, path: string, attackID: string, baseValue: string): string
  {
    h.toCanary(path) + attackID + baseValue
  }

  /** The specs of a bulk payload, `payload.split("[|]")`. */
  function Specs(payload: string): (r: seq<string>)
    ensures forall s :: s in r ==> '|' !in s
  {
    Split(payload, '|')
  }

  /** How one `|`-separated spec is read into a path and a value. */
  function ParseSpec(h: Helpers, unparsed: string, attackID: string, baseValue: string): (s: MutationSpec)
    ensures '~' !in s.path
    ensures '~' in unparsed ==>
              |s.path| < |unparsed| && unparsed[..|s.path|] == s.path && unparsed[|s.path|] == '~'
              && s.value == h.invert(unparsed[|s.path| + 1..])
    ensures '~' !in unparsed ==>
              s.path == unparsed && s.value == CanaryValue(h, unparsed, attackID, baseValue)
  {
    if '~' in unparsed then
      var parts := SplitAtFirst(unparsed, '~');
      assert unparsed[..|parts.0|] == parts.0 && unparsed[|parts.0| + 1..] == parts.1 by {
        assert unparsed == parts.0 + ['~'] + parts.1;
      }
      MutationSpec(parts.0, h.invert(parts.1))
    else
      MutationSpec(unparsed, CanaryValue(h, unparsed, attackID, baseValue))
  }

  /**
   * The payload the JSON builder retries with after an exception:
   * "error_" + String.join(":", params).replace(":", "_").
   */
  function FallbackPayload(params: seq<string>): string
  {
    "error_" + ReplaceChar(Join(params, ':'), ':', '_')
  }

  /** The retry payload is a single spec whose path has no `:`, so it names one top-level key. */
  lemma FallbackIsOneFlatSpec(h: Helpers, payload: string, attackID: string, baseValue: string)
    ensures var fb := FallbackPayload(Specs(payload));
            Specs(fb) == [fb] && ':' !in fb
            && Split(ParseSpec(h, fb, attackID, baseValue).path, ':') == [ParseSpec(h, fb, attackID, baseValue).path]
  {
    var ps := Specs(payload);
    JoinFree(ps, ':', '|');
    var fb := FallbackPayload(ps);
    var joined := ReplaceChar(Join(ps, ':'), ':', '_');
    assert fb == "error_" + joined;
    assert '|' !in joined;
    assert '|' !in fb by {
      forall i | 0 <= i < |fb| ensures fb[i] != '|' {
        if i >= 6 { assert fb[i] == joined[i - 6]; }
      }
    }
    assert ':' !in fb by {
      forall i | 0 <= i < |fb| ensures fb[i] != ':' {
        if i >= 6 { assert fb[i] == joined[i - 6]; }
      }
    }
    var path := ParseSpec(h, fb, attackID, baseValue).path;
    assert ':' !in path by {
      if '~' in fb {
        assert fb[..|path|] == path;
        forall i | 0 <= i < |path| ensures path[i] != ':' { assert path[i] == fb[i]; }
      }
    }
  }
}
