/** The fixed-shape result record every analyzer returns, success or failure. */
module Envelopes {
  import opened Core
  import opened Text

  /** The `metadata` object; `provider` is present only on the Gemini path and `error`
      is true only on error records (the key is absent otherwise). */
  datatype Metadata = Metadata(modelUsed: string, analysisType: string, provider: Option<string>, error: bool)

  /** The result dictionary. `userFriendly` is `None` where an analyzer builds the
      dictionary without a `user_friendly_summary` key. */
  datatype Envelope<F, C, V, I> = Envelope(
    summary: string,
    userFriendly: Option<string>,
    details: string,
    full: string,
    functions: seq<F>,
    classes: seq<C>,
    variables: seq<V>,
    imports: seq<I>,
    language: string,
    metadata: Metadata)

  const RuleMetadata := Metadata("rule-based", "rule", None, false)
  const RuleErrorMetadata := Metadata("rule-based", "rule", None, true)

  /** The shape of every `except` branch: the error flag set and all four lists empty. */
  predicate IsErrorEnvelope<F, C, V, I>(e: Envelope<F, C, V, I>)
  {
    e.metadata.error && e.functions == [] && e.classes == [] && e.variables == [] && e.imports == []
  }

  /** A rule-based error record for `language` with the given texts. */
  function RuleError<F, C, V, I>(summary: string, userFriendly: Option<string>, details: string,
                                 full: string, language: string): (r: Envelope<F, C, V, I>)
    ensures IsErrorEnvelope(r)
    ensures r.metadata.modelUsed == "rule-based" && r.metadata.analysisType == "rule"
    ensures r.summary == summary && r.full == full && r.details == details
    ensures r.userFriendly == userFriendly && r.language == language
  {
    Envelope(summary, userFriendly, details, full, [], [], [], [], language, RuleErrorMetadata)
  }

  /** One record of a pattern analyzer's `functions`, `classes` or `variables` list:
      its `name`, its `type`, and its `description` (or, for variables, its `scope`). */
  datatype Entry = Entry(name: string, kind: string, note: string)

  /** The records of a list of found names, each described by `heading` and the quoted name. */
  function Described(names: seq<string>, kind: string, heading: string): (r: seq<Entry>)
    ensures Names(r) == names
    ensures forall k :: 0 <= k < |r| ==> r[k].kind == kind && r[k].note == heading + Quoted(r[k].name)
  {
    if names == [] then [] else [Entry(names[0], kind, heading + Quoted(names[0]))] + Described(names[1..], kind, heading)
  }

  /** The records of a list of found names that all carry the same `note`. */
  function Noted(names: seq<string>, kind: string, note: string): (r: seq<Entry>)
    ensures Names(r) == names
    ensures forall k :: 0 <= k < |r| ==> r[k].kind == kind && r[k].note == note
  {
    if names == [] then [] else [Entry(names[0], kind, note)] + Noted(names[1..], kind, note)
  }

  function Names(entries: seq<Entry>): (r: seq<string>)
    ensures |r| == |entries|
    ensures forall k :: 0 <= k < |entries| ==> r[k] == entries[k].name
  {
    if entries == [] then [] else [entries[0].name] + Names(entries[1..])
  }
}
