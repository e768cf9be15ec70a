/**
 * The java.lang.String operations the insertion points rely on, on `string`.
 * `Split(s, d)` is `s.split(d)` for a one-character delimiter: it cuts at every
 * occurrence of d, then drops the trailing empty pieces, except that a string
 * with no occurrence at all comes back whole (so "" gives [""], "|" gives []).
 */
module JavaText {

  /** Every piece between occurrences of d, empty pieces included. */
  function SplitAll(s: string, d: char): (r: seq<string>)
    ensures |r| >= 1
    ensures forall p :: p in r ==> d !in p
    decreases |s|
  {
    if |s| == 0 then [""]
    else
      var rest := SplitAll(s[1..], d);
      if s[0] == d then [""] + rest else [[s[0]] + rest[0]] + rest[1..]
  }

  function DropTrailingEmpty(ps: seq<string>): (r: seq<string>)
    ensures |r| <= |ps| && r == ps[..|r|]
    ensures |r| > 0 ==> r[|r| - 1] != ""
    ensures forall j :: |r| <= j < |ps| ==> ps[j] == ""
    decreases |ps|
  {
    if |ps| > 0 && ps[|ps| - 1] == "" then DropTrailingEmpty(ps[..|ps| - 1]) else ps
  }

  function Split(s: string, d: char): (r: seq<string>)
    ensures forall p :: p in r ==> d !in p
    ensures d !in s ==> r == [s]
  {
    if d !in s then [s] else DropTrailingEmpty(SplitAll(s, d))
  }

  /** String.join(d, ps). */
  function Join(ps: seq<string>, d: char): string
    decreases |ps|
  {
    if |ps| == 0 then ""
    else if |ps| == 1 then ps[0]
    else ps[0] + [d] + Join(ps[1..], d)
  }

  /** s.replace(a, b) for single characters. */
  function ReplaceChar(s: string, a: char, b: char): (r: string)
    ensures |r| == |s|
    ensures forall i :: 0 <= i < |s| ==> r[i] == (if s[i] == a then b else s[i])
    ensures a != b ==> a !in r
  {
    seq(|s|, i requires 0 <= i < |s| => if s[i] == a then b else s[i])
  }

  /** s.split(d, 2) when s contains d: the text before the first d and the rest. */
  function SplitAtFirst(s: string, d: char): (r: (string, string))
    requires d in s
    ensures r.0 + [d] + r.1 == s
    ensures d !in r.0
    decreases |s|
  {
    if s[0] == d then ("", s[1..])
    else
      var r' := SplitAtFirst(s[1..], d);
      ([s[0]] + r'.0, r'.1)
  }

  lemma {:induction false} JoinSplitAll(s: string, d: char)
    ensures Join(SplitAll(s, d), d) == s
    decreases |s|
  {
    if |s| > 0 {
      var rest := SplitAll(s[1..], d);
      JoinSplitAll(s[1..], d);
      if s[0] == d {
        assert SplitAll(s, d) == [""] + rest;
        assert ([""] + rest)[1..] == rest;
      } else {
        var ps := [[s[0]] + rest[0]] + rest[1..];
        assert SplitAll(s, d) == ps;
        if |rest| > 1 {
          assert ps[1..] == rest[1..];
          assert Join(rest, d) == rest[0] + [d] + Join(rest[1..], d);
        }
      }
      assert s == [s[0]] + s[1..];
    }
  }

  lemma {:induction false} SplitAllLastNonEmpty(s: string, d: char)
    requires |s| > 0 && s[|s| - 1] != d
    ensures var ps := SplitAll(s, d); ps[|ps| - 1] != ""
    decreases |s|
  {
    if |s| > 1 {
      assert s[1..][|s[1..]| - 1] == s[|s| - 1];
      SplitAllLastNonEmpty(s[1..], d);
    }
  }

  /** Cutting a string that does not end with the delimiter and joining it again gives it back. */
  lemma SplitRoundTrip(s: string, d: char)
    requires |s| == 0 || s[|s| - 1] != d
    ensures Join(Split(s, d), d) == s
  {
    if d in s {
      SplitAllLastNonEmpty(s, d);
      JoinSplitAll(s, d);
    }
  }

  lemma {:induction false} SplitAllAppendDelimiter(s: string, d: char)
    ensures SplitAll(s + [d], d) == SplitAll(s, d) + [""]
    decreases |s|
  {
    if |s| == 0 {
      assert ([] + [d])[1..] == s;
    } else {
      assert (s + [d])[1..] == s[1..] + [d];
      SplitAllAppendDelimiter(s[1..], d);
    }
  }

  lemma DropTrailingEmptyAppend(ps: seq<string>)
    ensures DropTrailingEmpty(ps + [""]) == DropTrailingEmpty(ps)
  {
    assert (ps + [""])[..|ps|] == ps;
  }

  /** A trailing delimiter never adds a piece (Java drops trailing empty strings). */
  lemma SplitDropsTrailingDelimiter(s: string, d: char)
    requires s != ""
    ensures Split(s + [d], d) == Split(s, d)
  {
    SplitAllAppendDelimiter(s, d);
    DropTrailingEmptyAppend(SplitAll(s, d));
    if d !in s {
      assert SplitAll(s[1..], d) == [s[1..]] by { SplitAllNoDelimiter(s[1..], d); }
      assert s == [s[0]] + s[1..];
    }
  }

  lemma {:induction false} SplitAllNoDelimiter(s: string, d: char)
    requires d !in s
    ensures SplitAll(s, d) == [s]
    decreases |s|
  {
    if |s| > 0 {
      SplitAllNoDelimiter(s[1..], d);
      assert s == [s[0]] + s[1..];
    }
  }

  lemma {:induction false} JoinFree(ps: seq<string>, d: char, c: char)
    requires c != d
    requires forall p :: p in ps ==> c !in p
    ensures c !in Join(ps, d)
    decreases |ps|
  {
    if |ps| > 1 {
      assert forall p :: p in ps[1..] ==> p in ps;
      JoinFree(ps[1..], d, c);
    }
  }

  /** Cutting at the first delimiter gives the text before it, then the pieces of the rest. */
  lemma {:induction false} SplitAllAtFirst(a: string, b: string, d: char)
    requires d !in a
    ensures SplitAll(a + [d] + b, d) == [a] + SplitAll(b, d)
    decreases |a|
  {
    var s := a + [d] + b;
    if |a| == 0 {
      assert s[1..] == b;
    } else {
      assert s[1..] == a[1..] + [d] + b;
      SplitAllAtFirst(a[1..], b, d);
      assert [s[0]] + a[1..] == a;
    }
  }

  /** A two-piece split: "x:y" gives ["x", "y"] when neither part holds the delimiter and y is not empty. */
  lemma SplitTwo(a: string, b: string, d: char)
    requires d !in a && d !in b && b != ""
    ensures Split(a + [d] + b, d) == [a, b]
  {
    SplitAllAtFirst(a, b, d);
    SplitAllNoDelimiter(b, d);
    assert d in a + [d] + b by { assert (a + [d] + b)[|a|] == d; }
  }

  /** When `s.split(d)` has a first element, it is the text before the first d. */
  lemma SplitHead(s: string, d: char)
    requires d in s && Split(s, d) != []
    ensures Split(s, d)[0] == SplitAtFirst(s, d).0
  {
    var (a, b) := SplitAtFirst(s, d);
    SplitAllAtFirst(a, b, d);
  }

  lemma {:induction false} SplitAllOfDelimiters(s: string, d: char)
    requires forall i :: 0 <= i < |s| ==> s[i] == d
    ensures forall p :: p in SplitAll(s, d) ==> p == ""
    decreases |s|
  {
    if |s| > 0 {
      SplitAllOfDelimiters(s[1..], d);
    }
  }

  lemma {:induction false} DropAllEmpty(ps: seq<string>)
    requires forall i :: 0 <= i < |ps| ==> ps[i] == ""
    ensures DropTrailingEmpty(ps) == []
    decreases |ps|
  {
    if |ps| > 0 {
      DropAllEmpty(ps[..|ps| - 1]);
    }
  }

  lemma {:induction false} JoinOfEmpties(ps: seq<string>, d: char)
    requires forall p :: p in ps ==> p == ""
    ensures forall i :: 0 <= i < |Join(ps, d)| ==> Join(ps, d)[i] == d
    decreases |ps|
  {
    if |ps| > 1 {
      assert ps[0] in ps;
      assert forall p :: p in ps[1..] ==> p in ps;
      JoinOfEmpties(ps[1..], d);
    } else if |ps| == 1 {
      assert ps[0] in ps;
    }
  }

  /** `s.split(d)` is empty exactly when s is made of delimiters only (and has one). */
  lemma SplitEmptyIffDelimitersOnly(s: string, d: char)
    requires d in s
    ensures Split(s, d) == [] <==> forall i :: 0 <= i < |s| ==> s[i] == d
  {
    var ps := SplitAll(s, d);
    if Split(s, d) == [] {
      assert forall p :: p in ps ==> p == "";
      JoinSplitAll(s, d);
      JoinOfEmpties(ps, d);
    }
    if forall i :: 0 <= i < |s| ==> s[i] == d {
      SplitAllOfDelimiters(s, d);
      assert forall i :: 0 <= i < |ps| ==> ps[i] in ps;
      DropAllEmpty(ps);
    }
  }

  /** The first-delimiter cut of a + [d] + b, when a has no d, is (a, b). */
  lemma {:induction false} SplitAtFirstOf(a: string, b: string, d: char)
    requires d !in a
    ensures SplitAtFirst(a + [d] + b, d) == (a, b)
    decreases |a|
  {
    var s := a + [d] + b;
    if |a| == 0 {
      assert s[1..] == b;
    } else {
      assert s[1..] == a[1..] + [d] + b;
      SplitAtFirstOf(a[1..], b, d);
      assert [s[0]] + a[1..] == a;
    }
  }
}
