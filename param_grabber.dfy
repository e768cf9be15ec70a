/**
 * ParamGrabber (BurpExtender.java): a passive check that harvests words,
 * HTML keys and JSON responses from every response it sees. A JSON response
 * is kept only when its key list has not been seen before.
 */
module Grabber {
  import opened Host

  /** A request/response pair as the host hands it over. */
  datatype Exchange = Exchange(request: seq<byte>, response: seq<byte>)

  /**
   * The Keysmith and Utilities helpers saveParams calls, left uninterpreted:
   * getBody, getWords, getHtmlKeys, and the JSON parse followed by
   * getJsonKeys, which is None when the parser throws JsonParseException.
   */
  datatype Keysmith = Keysmith(
    getBody: seq<byte> -> string,
    getWords: string -> seq<string>,
    getHtmlKeys: string -> seq<string>,
    jsonKeys: string -> Option<seq<string>>)

  /** The grabber's four collections as one value. */
  datatype Store = Store(savedJson: seq<Exchange>, done: set<seq<string>>, savedWords: set<string>, savedGET: set<string>)

  function Elements(xs: seq<string>): (r: set<string>)
    ensures forall x :: x in r <==> x in xs
  {
    set x | x in xs
  }

  /** What one call of saveParams does to the collections. */
  function SaveStep(k: Keysmith, st: Store, ex: Exchange): (r: Store)
    ensures k.getBody(ex.response) == "" ==> r == st
    ensures st.savedJson <= r.savedJson && st.done <= r.done
    ensures st.savedWords <= r.savedWords && st.savedGET <= r.savedGET
  {
    var body := k.getBody(ex.response);
    if body == "" then st
    else
      var words := st.savedWords + Elements(k.getWords(body));
      var get := st.savedGET + Elements(k.getHtmlKeys(body));
      match k.jsonKeys(body)
      case None => Store(st.savedJson, st.done, words, get)
      case Some(keys) =>
        if keys in st.done then Store(st.savedJson, st.done, words, get)
        else Store(st.savedJson + [ex], st.done + {keys}, words, get)
  }

  /**
   * The count invariant: one saved response per recorded key list. saveParams
   * records a new key list and saves its response together, so the two grow in
   * step; this says how many there are, not which response goes with which list.
   */
  predicate Deduplicated(st: Store)
  {
    |st.savedJson| == |st.done|
  }

  /** saveParams keeps one exchange per new key list, so the store stays deduplicated. */
  lemma SaveStepKeepsDeduplicated(k: Keysmith, st: Store, ex: Exchange)
    requires Deduplicated(st)
    ensures Deduplicated(SaveStep(k, st, ex))
    ensures |SaveStep(k, st, ex).savedJson| <= |st.savedJson| + 1
  {
    var body := k.getBody(ex.response);
    if body != "" && k.jsonKeys(body).Some? && k.jsonKeys(body).value !in st.done {
      assert |st.done + {k.jsonKeys(body).value}| == |st.done| + 1;
    }
  }

  /** Seeing the same response again changes nothing. */
  lemma SaveStepIdempotent(k: Keysmith, st: Store, ex: Exchange)
    ensures SaveStep(k, SaveStep(k, st, ex), ex) == SaveStep(k, st, ex)
  {
    var body := k.getBody(ex.response);
    if body != "" {
      var once := SaveStep(k, st, ex);
      assert once.savedWords + Elements(k.getWords(body)) == once.savedWords;
      assert once.savedGET + Elements(k.getHtmlKeys(body)) == once.savedGET;
    }
  }

  /** What a response adds: its words and HTML keys, and the exchange itself exactly when its key list is new. */
  lemma SaveStepAdds(k: Keysmith, st: Store, ex: Exchange)
    requires k.getBody(ex.response) != ""
    ensures var body := k.getBody(ex.response);
            var st' := SaveStep(k, st, ex);
            (forall w :: w in k.getWords(body) ==> w in st'.savedWords)
            && (forall w :: w in k.getHtmlKeys(body) ==> w in st'.savedGET)
            && (st'.savedJson != st.savedJson <==> k.jsonKeys(body).Some? && k.jsonKeys(body).value !in st.done)
            && (k.jsonKeys(body).Some? && k.jsonKeys(body).value !in st.done ==> st'.savedJson == st.savedJson + [ex])
            && (k.jsonKeys(body).Some? ==> k.jsonKeys(body).value in st'.done)
  {
    var body := k.getBody(ex.response);
    if k.jsonKeys(body).Some? && k.jsonKeys(body).value !in st.done {
      assert |SaveStep(k, st, ex).savedJson| == |st.savedJson| + 1;
    }
  }

  class ParamGrabber {
    var savedJson: seq<Exchange>
    var done: set<seq<string>>
    var savedWords: set<string>
    var savedGET: set<string>

    function State(): Store
      reads this
    {
      Store(savedJson, done, savedWords, savedGET)
    }

    predicate Valid()
      reads this
    {
      Deduplicated(State())
    }

    constructor ()
      ensures State() == Store([], {}, {}, {}) && Valid()
    {
      savedJson := [];
      done := {};
      savedWords := {};
      savedGET := {};
    }

    /** saveParams; the copy saved to temporary files is the exchange itself here. */
    method SaveParams(k: Keysmith, ex: Exchange)
      requires Valid()
      modifies this
      ensures State() == SaveStep(k, old(State()), ex)
      ensures Valid()
    {
      SaveStepKeepsDeduplicated(k, State(), ex);
      var body := k.getBody(ex.response);
      if body != "" {
        savedWords := savedWords + Elements(k.getWords(body));
        savedGET := savedGET + Elements(k.getHtmlKeys(body));
        var parsed := k.jsonKeys(body);
        if parsed.Some? {
          var keys := parsed.value;
          if keys !in done {
            done := done + {keys};
            savedJson := savedJson + [ex];
          }
        }
      }
    }

    /** doPassiveScan: harvest the response and report no issue. */
    method DoPassiveScan(k: Keysmith, ex: Exchange) returns (issues: seq<string>)
      requires Valid()
      modifies this
      ensures State() == SaveStep(k, old(State()), ex) && Valid()
      ensures issues == []
    {
      SaveParams(k, ex);
      issues := [];
    }
  }
}
