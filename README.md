# Param Miner request builders in Dafny

This project models the request-building core of Param Miner's
`src/burp/BurpExtender.java`, a Burp Suite extension that guesses hidden
parameters. The extension sends many candidate parameter names in one request.
A bulk payload is a list of *specs* separated by `|`. Each spec is either a
name, which gets a canary value derived from it, or `name~encoded`, which gets
the inverted encoded value. The insertion points below turn a bulk payload into
a request:

- **ParamNameInsertionPoint** adds one parameter per spec through the host's
  update-or-insert (`NameInsertion`).
- **RailsInsertionPoint** first picks a default object name. This is the object
  that occurs most often in the request's `object:key` keys. It then prefixes
  every bare spec with that object before using the name-keyed builder
  (`RailsInsertion`).
- **JsonParamNameInsertionPoint** reads each spec's path as `:`-separated
  segments. It walks the JSON body with a cursor, padding lists with canaries
  and creating missing containers. It skips any segment whose kind does not fit
  the node under the cursor and writes the value at the last segment. When the
  build throws, the source retries recursively with an escaped payload; the
  model follows one retry (`JsonInsertion`, with its guarantees in
  `JsonProperties`).

The project also models:

- **ParamSpammer**, the Intruder payload generator: a cursor over a payload list.
- **The template filter** of its factory, which drops every `§` byte.
- **ParamGrabber.saveParams**, which records each new JSON key list once.
- The small issue helpers: confidence, severity and the duplicate test.

Modules and what they hold:

- `Host`: the helpers the code calls but does not define (Burp's extension
  helpers, the extension's `Utilities` and `Keysmith`). They are fields of
  function type, so every property holds for any behaviour they might have. The
  model never assumes, for instance, that `invert` undoes `toCanary`. `Host`
  also holds the range of a Java `int`, which `parseArrayIndex` returns, and
  the `int` successor, with its wrap-around at `Integer.MAX_VALUE`.
- `JavaText`: `String.split` for a one-character delimiter, modelled as Java
  does it. Trailing empty pieces are dropped, and a string without the
  delimiter comes back whole. The module also holds `split(d, 2)`, `join` and
  `replace`, with the lemmas relating them.
- `Payload`: the spec grammar shared by the name-keyed and the JSON builders,
  plus the JSON builder's retry payload.

Each operation that loops is a `method` whose loop invariants tie it to a
specification function. The JSON builder mutates the parsed tree in place
through the cursor `next`. Here that cursor is a zipper: the node in focus plus
the frames of the path above it. `JsonInsertion.ApplySpecInPlace` is proved to
compute the recursive `Walk` from those pieces. The classes `ParamSpammer` and
`ParamGrabber` keep their fields and update them in place.

Two behaviours of the JSON builder are easy to miss:

- A kind mismatch skips only that segment. The `ClassCastException` is caught
  per segment, so edits made earlier are kept, and the next segment starts
  from the same cursor (`JsonProperties.MismatchSkipsSegment`).
- With a JSON `null` body, every spec throws: NullPointerException, or
  IndexOutOfBoundsException for a path of colons only. The escaped retry throws
  too. For any payload with at least one spec, the source therefore recurses
  until a StackOverflowError escapes buildRequest, and the model reports
  `Diverged` (`JsonProperties.NullDocumentDiverges`). A payload with no spec
  returns the body unchanged (`JsonProperties.NullDocumentWithoutSpecs`).

## Model

| member | source | states |
|---|---|---|
| Host.JavaSucc | src/burp/BurpExtender.java:709 | `index + 1` is the successor except at Integer.MAX_VALUE, where it wraps to a negative number |
| JavaText.Split | src/burp/BurpExtender.java:559 | no piece of `split` contains the delimiter, and a string without the delimiter comes back as the only piece |
| JavaText.SplitRoundTrip | src/burp/BurpExtender.java:559 | joining the pieces with the delimiter gives back any string that does not end with it |
| JavaText.SplitDropsTrailingDelimiter | src/burp/BurpExtender.java:559 | a trailing delimiter adds no piece |
| JavaText.SplitTwo | src/burp/BurpExtender.java:679 | `x:y` splits into exactly `[x, y]` when neither part holds `:` and `y` is not empty |
| JavaText.SplitAtFirst | src/burp/BurpExtender.java:564 | `split("~", 2)` cuts at the first `~`: the left part has no `~`, and left + `~` + right is the input |
| JavaText.SplitEmptyIffDelimitersOnly | src/burp/BurpExtender.java:589 | `split` gives no pieces exactly when the string consists of delimiters only |
| JavaText.SplitHead | src/burp/BurpExtender.java:589 | the first piece of `split`, when there is one, is the text before the first delimiter |
| Payload.Specs | src/burp/BurpExtender.java:559 | the specs of a bulk payload contain no `|` |
| Payload.ParseSpec | src/burp/BurpExtender.java:563-570 | a spec with `~` gives the path before its first `~` and the value `invert` of the rest; any other spec is its own path, with value `toCanary(path) + attackID + baseValue` |
| Payload.FallbackIsOneFlatSpec | src/burp/BurpExtender.java:740 | the retry payload is a single spec whose path has no `:`, so it names one top-level key |
| JsonInsertion.Classify | src/burp/BurpExtender.java:706-707 | a key is a list index exactly when `parseArrayIndex` is not -1, and then the index is that number |
| JsonInsertion.MakeNode | src/burp/BurpExtender.java:644-654 | the last segment gets the value; any other segment gets an empty list when the next segment is an index and an empty map otherwise; it throws exactly when the next index is below -1 (negative capacity) |
| JsonInsertion.Fillers | src/burp/BurpExtender.java:710-712 | the padding has one fresh canary per missing position, in position order |
| JsonInsertion.Root | src/burp/BurpExtender.java:681-697 | the walk starts from the document when its kind suits the first segment, from JSON null as it is, and from a fresh empty container of the right kind otherwise |
| JsonInsertion.AppendFillers | src/burp/BurpExtender.java:710-712 | the `k` loop appends exactly the canaries for positions size..index-1 |
| JsonInsertion.Step | src/burp/BurpExtender.java:702-727 | one segment on a null cursor throws NullPointerException; the segment is skipped exactly when its cast fails (a scalar cursor, an index on a map, a key on a list) |
| JsonInsertion.StepInPlace | src/burp/BurpExtender.java:702-727 | one pass of the inner loop equals `Step`: pad or set in a list, put in a map, skip on a cast failure, throw on null, on a bad index or on a negative capacity |
| JsonInsertion.ApplySpecInPlace | src/burp/BurpExtender.java:668-730 | the cursor loop over one spec's segments computes `ApplySpec`, the recursive walk plugged back into the document |
| JsonInsertion.BuildBodyInPlace | src/burp/BurpExtender.java:664-731 | the outer loop applies the specs left to right, each to the previous result, and stops at the first exception |
| JsonInsertion.BuildRequest | src/burp/BurpExtender.java:663-743 | buildRequest returns the headers with the rebuilt body; on an exception it retries with the escaped payload; the model follows one retry and reports `Diverged` when that retry throws too |
| JsonProperties.NameSegmentTouchesOnlyItsKey | src/burp/BurpExtender.java:719-723 | a name segment on a map yields a map whose keys are the old keys plus its own, with every other entry unchanged |
| JsonProperties.ExistingKeyIsDescended | src/burp/BurpExtender.java:720-723 | an existing key at a non-final segment keeps its value, and the rest of the path edits that value |
| JsonProperties.MissingKeyGetsEmptyContainer | src/burp/BurpExtender.java:720-723 | a missing key at a non-final segment gets a fresh container of the kind the next segment needs, and the rest of the path edits it |
| JsonProperties.FinalNameSegmentSets | src/burp/BurpExtender.java:704-721 | at the last segment the key is set to the value whatever it held, and nothing else in the map changes |
| JsonProperties.NullUnderKeyThrows | src/burp/BurpExtender.java:719-723 | a JSON null under a key at a non-final segment makes the next segment throw NullPointerException |
| JsonProperties.IndexPastEndPads | src/burp/BurpExtender.java:709-713 | an index at or past the end keeps the old elements, pads with canaries up to the index and appends the node, so the list has index + 1 elements and the node is at the index |
| JsonProperties.IndexInRangeKeepsLength | src/burp/BurpExtender.java:714-717 | an index inside the list keeps its length and every other element; it descends into a non-null element, replaces a null one with a fresh container, and sets the value at the last segment |
| JsonProperties.BadIndexThrows | src/burp/BurpExtender.java:709-717 | an index below zero, or Integer.MAX_VALUE where `index + 1` wraps, throws IndexOutOfBoundsException |
| JsonProperties.MismatchSkipsSegment | src/burp/BurpExtender.java:725-727 | a segment of the wrong kind for the node under the cursor is skipped: the walk goes on at the next segment from the same node |
| JsonProperties.ScalarAbsorbsPath | src/burp/BurpExtender.java:725-727 | once the cursor is on a scalar, every remaining segment is skipped and the scalar is left as it was |
| JsonProperties.NullCursorThrows | src/burp/BurpExtender.java:708-720 | any segment applied to a null cursor throws NullPointerException |
| JsonProperties.MadeNodeFits | src/burp/BurpExtender.java:644-654 | a node made ahead of the next segment always has the kind that segment needs |
| JsonProperties.WalkWritesValue | src/burp/BurpExtender.java:700-728 | when no existing node mismatches the path, following the path through the result reaches the value |
| JsonProperties.BuildBodyAppend | src/burp/BurpExtender.java:665-731 | applying the specs of `a + b` is applying those of `a`, then those of `b` to the result |
| JsonProperties.ApplySpecOnNullThrows | src/burp/BurpExtender.java:681-720 | a spec applied to a JSON null body always throws: IndexOutOfBoundsException when its path splits into no keys (colons only), NullPointerException otherwise |
| JsonProperties.NullDocumentDiverges | src/burp/BurpExtender.java:737-740 | for a JSON null body and any payload with at least one spec, the build and its escaped retry both throw, so the model reports `Diverged` where the source recurses until a StackOverflowError escapes |
| JsonProperties.NullDocumentWithoutSpecs | src/burp/BurpExtender.java:664-735 | a payload with no spec returns the headers with the body unchanged, whatever the body, JSON null included |
| JsonProperties.FallbackRecovers | src/burp/BurpExtender.java:740 | for any other body, the retry succeeds when its single path reads as a key |
| JsonProperties.TwoKeySpec | src/burp/BurpExtender.java:671-681 | a spec `k1:k2` without `~` whose parts are keys walks the two name segments with the canary value |
| JsonProperties.TwoKeyWalk | src/burp/BurpExtender.java:719-723 | two name segments into a nested object set the second key inside it |
| JsonProperties.NestedKeyExample | src/burp/BurpExtender.java:668-731 | `{a: {b: x}}` with the path `a:c` keeps `b` and adds `c` inside the inner object |
| JsonProperties.IndexKeyWalk | src/burp/BurpExtender.java:709-723 | index 0 then a key, from an empty list, gives a one-element list holding an object with that key |
| JsonProperties.IndexIntoObjectExample | src/burp/BurpExtender.java:681-730 | `{}` with the path `0:x` becomes `[{"x": value}]`, because the object root is replaced by a list |
| NameInsertion.NewParam | src/burp/BurpExtender.java:562-573 | a bare spec becomes the parameter (encoded name, encoded canary); a `~` spec becomes (encoded text before the first `~`, encoded inverted rest); both keep the insertion point's kind |
| NameInsertion.BuildNameRequest | src/burp/BurpExtender.java:557-577 | the loop applies one update per spec, in payload order, each to the request the previous update built |
| NameInsertion.BuildRequest | src/burp/BurpExtender.java:553-555 | the one-argument form builds on the insertion point's own request |
| NameInsertion.NameFoldAppend | src/burp/BurpExtender.java:561-575 | applying two runs of specs in turn is applying their concatenation |
| NameInsertion.SingleSpecIsOneUpdate | src/burp/BurpExtender.java:559-575 | a payload without `|` is exactly one update, with the parameter its spec describes |
| NameInsertion.TrailingBarAddsNothing | src/burp/BurpExtender.java:559 | a trailing `|` adds no parameter |
| NameInsertion.BarOnlyLeavesRequest | src/burp/BurpExtender.java:559-576 | the payload `|` leaves the request unchanged |
| NameInsertion.TwoSpecsChain | src/burp/BurpExtender.java:559-575 | `a\|b` is the update for `a` followed by the update for `b` on its result |
| RailsInsertion.ObjectOf | src/burp/BurpExtender.java:589 | `key.split(":")[0]` throws exactly for a key of colons only; otherwise it is the text before the first `:`, which has no `:` |
| RailsInsertion.CountKey | src/burp/BurpExtender.java:588-590 | a key without `:` adds nothing, and an exception stays an exception |
| RailsInsertion.Objects | src/burp/BurpExtender.java:587-592 | the counting loop can only throw IndexOutOfBoundsException |
| RailsInsertion.ObjectsCounted | src/burp/BurpExtender.java:587-592 | objects are counted exactly when some key contains `:`, and no counted object contains `:` |
| RailsInsertion.ObjectsThrows | src/burp/BurpExtender.java:587-592 | the counting throws exactly when some key consists of colons only |
| RailsInsertion.PickFrom | src/burp/BurpExtender.java:594-601 | the entry scan ends with no key exactly when every count is zero; otherwise its key has the largest count, and every earlier entry has a strictly smaller one |
| RailsInsertion.DefaultPrefix | src/burp/BurpExtender.java:585-602 | the only exception the prefix selection raises is IndexOutOfBoundsException |
| RailsInsertion.DefaultPrefixIsMostFrequent | src/burp/BurpExtender.java:585-602 | there is no default prefix exactly when no key contains `:`; otherwise it is a counted object without `:` that no object outnumbers, and the first such in entry order |
| RailsInsertion.DefaultPrefixThrows | src/burp/BurpExtender.java:587-592 | the constructor throws exactly when some key consists of colons only |
| RailsInsertion.NewRails | src/burp/BurpExtender.java:583-602 | the constructor throws IndexOutOfBoundsException exactly when some key consists of colons only; otherwise it keeps the name-keyed state and the prefix `DefaultPrefix` selects, which is absent exactly when no key has `:` and never contains `:` |
| RailsInsertion.NewRailsInsertionPoint | src/burp/BurpExtender.java:583-602 | the constructor's two loops build exactly `NewRails` |
| RailsInsertion.RailsPrefixReadsBack | src/burp/BurpExtender.java:583-620 | for an insertion point the constructor built, a bare non-empty key sent with the default prefix splits back into `[prefix, key]` |
| RailsInsertion.SelectDefaultPrefix | src/burp/BurpExtender.java:585-602 | the frequency loop and the strict-maximum loop compute `DefaultPrefix` for the given entry order |
| RailsInsertion.Prefixed | src/burp/BurpExtender.java:617-619 | a key with `:`, or any key when there is no prefix, is unchanged; a bare key becomes the prefix, then `:` at position `|prefix|`, then the key |
| RailsInsertion.PrefixedSplits | src/burp/BurpExtender.java:617-620 | a prefixed key reads back as `[prefix, key]` |
| RailsInsertion.BuildRailsRequest | src/burp/BurpExtender.java:612-623 | each key is prefixed when needed, unparsed, and applied with the name-keyed builder to the running request |
| RailsInsertion.NoPrefixIsNameFold | src/burp/BurpExtender.java:612-623 | without a default prefix, and with an unparser that leaves plain keys alone, the Rails builder equals the name-keyed builder |
| RailsInsertion.PrefixExample | src/burp/BurpExtender.java:617-619 | with prefix `user`, `name` becomes `user:name`, while `a:b` is unchanged |
| RailsInsertion.ObjectOfKey | src/burp/BurpExtender.java:589 | a key `o:rest` with `o` non-empty and free of `:` counts towards `o` |
| RailsInsertion.ObjectsOfPrefixedKeys | src/burp/BurpExtender.java:587-592 | keys of the form `o:rest`, each `o` non-empty and free of `:`, count exactly their objects, in key order |
| RailsInsertion.ObjectsOfMajorityKeys | src/burp/BurpExtender.java:587-592 | keys `o1:a, o1:b, o2:x, o1:c` and a plain key count `[o1, o1, o2, o1]` |
| RailsInsertion.MajorityObjectSelected | src/burp/BurpExtender.java:585-602 | three keys under `o1` and one under `o2` select `o1`, whatever the entry order |
| Spammer.WithoutSectionSigns | src/burp/BurpExtender.java:106-112 | the filtered template has no 0xa7 byte, loses exactly that many bytes, and keeps the count of every other byte |
| Spammer.StripSectionSigns | src/burp/BurpExtender.java:105-112 | the byte loop writes exactly the filtered template |
| Spammer.WithoutSectionSignsAppend | src/burp/BurpExtender.java:108-112 | filtering a concatenation filters each part |
| Spammer.WithoutSectionSignsKeepsClean | src/burp/BurpExtender.java:108-112 | a template without markers passes through unchanged |
| Spammer.WithoutSectionSignsIdempotent | src/burp/BurpExtender.java:108-112 | filtering twice is filtering once |
| Spammer.WithoutSectionSignsIsSubsequence | src/burp/BurpExtender.java:108-112 | every kept byte appears in the output after the kept bytes that preceded it, so the order is preserved |
| Spammer.Next | src/burp/BurpExtender.java:136 | `params.get(index)` succeeds exactly inside the list and gives that element; it throws IndexOutOfBoundsException otherwise |
| Spammer.ParamSpammer.constructor | src/burp/BurpExtender.java:122-127 | a new generator holds the list with its cursor at 0 |
| Spammer.HasMore | src/burp/BurpExtender.java:130-132 | the check as written holds exactly when `index + 1` is inside the list, or when the cursor is at Integer.MAX_VALUE and `index + 1` wraps |
| Spammer.Served | src/burp/BurpExtender.java:130-137 | what a caller that asks before every read receives from the check as written is a prefix of the list from the cursor on |
| Spammer.ServedIntended | src/burp/BurpExtender.java:130-137 | what the caller receives with the corrected check is a prefix of the list from the cursor on |
| Spammer.ParamSpammer.HasMorePayloads | src/burp/BurpExtender.java:130-132 | as written: more payloads exactly when `size > index + 1` (Java `int` addition) |
| Spammer.ParamSpammer.GetNextPayload | src/burp/BurpExtender.java:135-137 | returns the element at the old cursor (or the exception) and advances the cursor by one in every case |
| Spammer.ParamSpammer.Reset | src/burp/BurpExtender.java:140-142 | the cursor goes back to 0 and the list is unchanged |
| Spammer.HasMoreIntended | src/burp/BurpExtender.java:130-132 | corrected check: more payloads exactly when the next read would succeed (or the cursor has wrapped negative) |
| Spammer.ServedDropsLast | src/burp/BurpExtender.java:130-137 | as written, a caller that asks before every read gets every payload but the last |
| Spammer.ServedIntendedAll | src/burp/BurpExtender.java:130-137 | with the corrected check, a caller gets the whole list in order |
| Spammer.SinglePayloadNeverServed | src/burp/BurpExtender.java:130-137 | a one-payload list serves nothing as written and that payload as intended |
| Grabber.SaveStep | src/burp/BurpExtender.java:186-205 | an empty body changes nothing, and no call removes anything from the four collections; saved responses only grow at the end |
| Grabber.SaveStepKeepsDeduplicated | src/burp/BurpExtender.java:196-200 | one call adds at most one saved response, and only together with a new key list, so saved responses and seen key lists stay equal in number |
| Grabber.SaveStepIdempotent | src/burp/BurpExtender.java:186-205 | seeing the same response twice is seeing it once |
| Grabber.SaveStepAdds | src/burp/BurpExtender.java:188-200 | a non-empty body adds its words and HTML keys; the saved responses change exactly when the JSON key list is new, the response is then appended to them, and a parsed key list is always recorded |
| Grabber.ParamGrabber.constructor | src/burp/BurpExtender.java:167-172 | all four collections start empty |
| Grabber.ParamGrabber.SaveParams | src/burp/BurpExtender.java:186-205 | the fields change exactly as `SaveStep` says and stay deduplicated; an empty body changes nothing, and a parse failure adds only words and HTML keys |
| Grabber.ParamGrabber.DoPassiveScan | src/burp/BurpExtender.java:181-184 | it harvests the response and reports no issue |
| Issues.CalculateConfidence | src/burp/BurpExtender.java:317-323 | the confidence is `Firm` exactly for a reliable finding and `Tentative` otherwise |
| Issues.GenerateSeverity | src/burp/BurpExtender.java:340-346 | the severity is `Information` exactly when the only interesting transformation is backslash-zero to NUL, and `High` otherwise |
| Issues.SeverityExamples | src/burp/BurpExtender.java:340-346 | any other single transformation, two transformations, or none are `High` |
| Issues.ConsolidateDuplicateIssues | src/burp/BurpExtender.java:208-212 | -1 (keep only the existing issue) exactly when name and detail are equal, 0 otherwise; FastScan's copy at lines 300-304 is the same test |
| Issues.ConsolidateSymmetric | src/burp/BurpExtender.java:208-212 | the duplicate test does not depend on the order of its arguments |

## Left out

- Extension start-up (`registerExtenderCallbacks`), FastScan's active scan, and `Substituter`: they are host and network plumbing around the core.
- The issue classes beyond their three pure helpers: they are getters and HTML text.
- The flat `ParamInsertionPoint.buildRequest`. It is one host call and is not part of this model.
- The JsonParamNameInsertionPoint constructor's split of headers and body, and the parsing and serialising of JSON text, including key order and number formats. The body is a parsed `Json` value, and parsing and serialising are the identity on it. A body that is not valid JSON, and the exception it raises, are therefore not modelled.
- Scalar kinds: strings, numbers and booleans are one `Scalar` carrying text. `invert` returns a string in the model, where the source returns an `Object`.
- The call to `fixContentLength` on the built request and on the filtered template, and the byte/string conversions (`bytesToString`, `stringToBytes`). Payloads and values are strings.
- `Utilities.generateCanary()` draws a fresh canary on every call. The model writes `generateCanary(k)` for list position k, so the padding canaries are otherwise arbitrary.
- Memory exhaustion from a huge list index or capacity.
- JsonInsertion.JsonRequest: the source retries recursively with ever longer escaped payloads and, when every attempt throws, recurses until a StackOverflowError escapes buildRequest. The model retries once and reports `Diverged` when the retry throws too.
- The aliasing of the in-place tree mutation is not modelled. The cursor is a zipper over an immutable tree, which computes the same resulting document.
- HashMap iteration order in the Rails constructor is a parameter (`order`), required to list every counted object once. The keys from `Keysmith.getAllKeys` are a parameter too.
- The logging of the Rails constructor and of the JSON retry, and the stack trace it prints.
- The concurrency of ParamGrabber's concurrent sets. `savedJson` is a sequence, because each saved response is a fresh temporary-file copy and never equal to an earlier one. That copy is the exchange itself here.
- The JSON parse-and-key-extraction in saveParams is one uninterpreted helper, `jsonKeys`. It returns None where the parser throws `JsonParseException`.
- The factory's request back to the server and `ParamGuesser.calculatePayloads`, which produce the payload list: both are outside this model.

## Findings

| source | as written | input that shows it | evidently intended | confidence | as-written member | corrected member |
|---|---|---|---|---|---|---|
| src/burp/BurpExtender.java:130-132 | `hasMorePayloads` returns `params.size() > index+1` | a list with one payload: at index 0 the test `1 > 1` is false, so Intruder asks for nothing; in general the last payload is never requested | `params.size() > index`, so every payload is served | not executed | Spammer.ServedDropsLast | Spammer.ServedIntendedAll |
