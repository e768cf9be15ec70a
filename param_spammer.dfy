/**
 * The Intruder payload generator (BurpExtender.java, ParamSpammerFactory and
 * ParamSpammer): the factory strips every `§` byte (0xa7) from the attack's
 * request template, and the generator hands out a fixed list of payloads one
 * at a time through a cursor.
 */
module Spammer {
  import opened Host

  // ---------------------------------------------------------------------------
  // The template filter of createNewInstance

  /** Burp's payload-position marker `§`, the byte 0xa7 (a Java byte compares as -89 either way). */
  const SectionSign: byte := 0xa7

  /** The template with every marker byte dropped and the other bytes kept in order. */
  function WithoutSectionSigns(bs: seq<byte>): (r: seq<byte>)
    ensures SectionSign !in r
    ensures |r| == |bs| - multiset(bs)[SectionSign]
    ensures forall b :: b != SectionSign ==> multiset(r)[b] == multiset(bs)[b]
    decreases |bs|
  {
    if bs == [] then []
    else
      var rest := WithoutSectionSigns(bs[..|bs| - 1]);
      assert bs == bs[..|bs| - 1] + [bs[|bs| - 1]];
      if bs[|bs| - 1] == SectionSign then rest else rest + [bs[|bs| - 1]]
  }

  /** The byte loop writing into the output stream. */
  method StripSectionSigns(baseLine: seq<byte>) returns (out: seq<byte>)
    ensures out == WithoutSectionSigns(baseLine)
  {
    out := [];
    var i := 0;
    while i < |baseLine|
      invariant i <= |baseLine|
      invariant out == WithoutSectionSigns(baseLine[..i])
    {
      var b := baseLine[i];
      assert baseLine[..i + 1][..i] == baseLine[..i];
      if b != SectionSign {
        out := out + [b];
      }
      i := i + 1;
    }
    assert baseLine[..i] == baseLine;
  }

  /** Filtering a concatenation filters each part. */
  lemma {:induction false} WithoutSectionSignsAppend(a: seq<byte>, b: seq<byte>)
    ensures WithoutSectionSigns(a + b) == WithoutSectionSigns(a) + WithoutSectionSigns(b)
    decreases |b|
  {
    if b == [] {
      assert a + b == a;
    } else {
      var b' := b[..|b| - 1];
      assert (a + b)[..|a + b| - 1] == a + b';
      assert (a + b)[|a + b| - 1] == b[|b| - 1];
      WithoutSectionSignsAppend(a, b');
    }
  }

  /** A template without markers passes through unchanged, so filtering twice is filtering once. */
  lemma {:induction false} WithoutSectionSignsKeepsClean(bs: seq<byte>)
    requires SectionSign !in bs
    ensures WithoutSectionSigns(bs) == bs
    decreases |bs|
  {
    if bs != [] {
      assert bs[|bs| - 1] in bs;
      assert forall b :: b in bs[..|bs| - 1] ==> b in bs;
      WithoutSectionSignsKeepsClean(bs[..|bs| - 1]);
      assert bs == bs[..|bs| - 1] + [bs[|bs| - 1]];
    }
  }

  lemma WithoutSectionSignsIdempotent(bs: seq<byte>)
    ensures WithoutSectionSigns(WithoutSectionSigns(bs)) == WithoutSectionSigns(bs)
  {
    WithoutSectionSignsKeepsClean(WithoutSectionSigns(bs));
  }

  /** The bytes that remain are the template's non-marker bytes, in their original order. */
  lemma {:induction false} WithoutSectionSignsIsSubsequence(bs: seq<byte>, i: nat)
    requires i < |bs| && bs[i] != SectionSign
    ensures var k := |WithoutSectionSigns(bs[..i])|;
            k < |WithoutSectionSigns(bs)| && WithoutSectionSigns(bs)[k] == bs[i]
  {
    var pre, b, post := bs[..i], bs[i], bs[i + 1..];
    assert bs == (pre + [b]) + post;
    WithoutSectionSignsAppend(pre + [b], post);
    WithoutSectionSignsAppend(pre, [b]);
    assert WithoutSectionSigns([b]) == [b] by {
      assert [b][..0] == [];
    }
    var w := WithoutSectionSigns(pre);
    assert WithoutSectionSigns(bs) == (w + [b]) + WithoutSectionSigns(post);
  }

  // ---------------------------------------------------------------------------
  // The payload generator

  /** hasMorePayloads as written: `params.size() > index+1`, with Java's int addition. */
  function HasMore(params: seq<string>, index: int): (more: bool)
    ensures more <==> index == IntMax || index + 1 < |params|
  {
    |params| > JavaSucc(index)
  }

  /** getNextPayload's result: `params.get(index)`, which throws outside the list. */
  function Next(params: seq<string>, index: int): (r: Result<string>)
    ensures r.Ok? <==> 0 <= index < |params|
    ensures r.Ok? ==> r.value == params[index]
    ensures r.Err? ==> r.fault == IndexOutOfBounds
  {
    if 0 <= index < |params| then Ok(params[index]) else Err(IndexOutOfBounds)
  }

  class ParamSpammer {
    var params: seq<string>
    var index: int

    constructor (params: seq<string>)
      ensures this.params == params && index == 0
    {
      this.params := params;
      index := 0;
    }

    method HasMorePayloads() returns (more: bool)
      ensures more <==> |params| > JavaSucc(index)
    {
      more := |params| > JavaSucc(index);
    }

    /** `params.get(index++)`: the cursor moves on even when the read throws. */
    method GetNextPayload() returns (r: Result<string>)
      modifies this
      ensures params == old(params) && index == JavaSucc(old(index))
      ensures r == Next(params, old(index))
    {
      r := Next(params, index);
      index := JavaSucc(index);
    }

    method Reset()
      modifies this
      ensures params == old(params) && index == 0
    {
      index := 0;
    }
  }

  /**
   * The payloads a caller receives from position index on when it asks
   * hasMorePayloads before every getNextPayload, as Intruder does; a read
   * that throws ends the run.
   */
  function Served(params: seq<string>, index: nat): (r: seq<string>)
    ensures index <= |params| ==> r <= params[index..]
    decreases |params| - index
  {
    if !HasMore(params, index) then []
    else
      match Next(params, index)
      case Ok(p) => [p] + Served(params, index + 1)
      case Err(_) => []
  }

  /** The check the generator evidently means: a payload is left while the cursor is inside the list. */
  function HasMoreIntended(params: seq<string>, index: int): (more: bool)
    ensures more <==> Next(params, index).Ok? || index < 0
  {
    index < |params|
  }

  function ServedIntended(params: seq<string>, index: nat): (r: seq<string>)
    ensures index <= |params| ==> r <= params[index..]
    decreases |params| - index
  {
    if !HasMoreIntended(params, index) then []
    else
      match Next(params, index)
      case Ok(p) => [p] + ServedIntended(params, index + 1)
      case Err(_) => []
  }

  /** As written, every payload but the last is served: the last one never is. */
  lemma {:induction false} ServedDropsLast(params: seq<string>, index: nat)
    requires |params| <= IntMax && index < |params|
    ensures Served(params, index) == params[index..|params| - 1]
    decreases |params| - index
  {
    if index + 1 < |params| {
      ServedDropsLast(params, index + 1);
      assert params[index..|params| - 1] == [params[index]] + params[index + 1..|params| - 1];
    }
  }

  /** With the intended check, a fresh or reset generator serves the whole list in order. */
  lemma {:induction false} ServedIntendedAll(params: seq<string>, index: nat)
    requires index <= |params|
    ensures ServedIntended(params, index) == params[index..]
    decreases |params| - index
  {
    if index < |params| {
      ServedIntendedAll(params, index + 1);
      assert params[index..] == [params[index]] + params[index + 1..];
    }
  }

  /** A list with a single payload: nothing is served as written, the payload is served as intended. */
  lemma SinglePayloadNeverServed(p: string)
    ensures Served([p], 0) == []
    ensures ServedIntended([p], 0) == [p]
  {
    ServedIntendedAll([p], 0);
  }
}
