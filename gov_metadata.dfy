/**
 * The strict schema checks on proposal and vote metadata.  The metadata
 * string is first decoded by a JSON parser, which is a parameter here: it
 * returns the JSON value the string denotes, or nothing when the string is
 * not JSON (the empty string among them).  On the parsed value the model
 * follows the two decodings the Go code does: into the metadata struct
 * (which fails when a known field has the wrong JSON type) and into a
 * key-value map, from which the known keys are removed.
 */
module GovMetadata {
  import opened Wrappers

  datatype Json =
    | JNull
    | JBool(b: bool)
    | JNumber(n: int)
    | JString(s: string)
    | JArray(items: seq<Json>)
    | JObject(fields: map<string, Json>)

  /** All failures wrap `ErrInvalidMetadata`; the variant says which check failed. */
  datatype MetadataError = BadJson | MissingTitle | MissingAuthors | MissingDetails | UnexpectedFields

  /** `ProposalMetadata`; `authors` is `None` for a nil slice. */
  datatype ProposalMetadata = ProposalMetadata(
    title: string, authors: Option<seq<string>>, summary: string, details: string,
    proposalForumUrl: string, voteOptionContext: string)

  datatype VoteMetadata = VoteMetadata(justification: string)

  const ProposalKeys: set<string> := {"title", "authors", "summary", "details", "proposal_forum_url", "vote_option_context"}
  const VoteKeys: set<string> := {"justification"}

  /** A JSON value Go decodes into a `string`: a string, or `null`, which leaves it empty. */
  predicate IsStringLike(j: Json) {
    j.JString? || j.JNull?
  }

  function StringOf(j: Json): string {
    if j.JString? then j.s else ""
  }

  /** A field decoded into a `string`: absent and `null` leave it empty, any other non-string is a type error. */
  function StringField(f: map<string, Json>, key: string): (r: Option<string>)
    ensures r.Some? <==> key !in f || IsStringLike(f[key])
    ensures r.Some? && key in f && f[key].JString? ==> r.value == f[key].s
  {
    if key !in f then Some("")
    else if IsStringLike(f[key]) then Some(StringOf(f[key]))
    else None
  }

  /** A field decoded into a `[]string`: absent and `null` give a nil slice. */
  function StringsField(f: map<string, Json>, key: string): (r: Option<Option<seq<string>>>)
    ensures r.Some? <==> key !in f || f[key].JNull? || (f[key].JArray? && forall i :: 0 <= i < |f[key].items| ==> IsStringLike(f[key].items[i]))
    ensures r.Some? ==> (r.value.None? <==> key !in f || f[key].JNull?)
    ensures r.Some? && r.value.Some? ==>
      (|r.value.value| == |f[key].items| && forall i :: 0 <= i < |f[key].items| ==> r.value.value[i] == StringOf(f[key].items[i]))
  {
    if key !in f || f[key].JNull? then Some(None)
    else if f[key].JArray? && forall i :: 0 <= i < |f[key].items| ==> IsStringLike(f[key].items[i]) then
      Some(Some(seq(|f[key].items|, i requires 0 <= i < |f[key].items| => StringOf(f[key].items[i]))))
    else None
  }

  /** The first decoding, into the struct: only an object or `null` decodes, and every known field must have its type. */
  function DecodeProposal(j: Json): Option<ProposalMetadata> {
    match j
    case JNull => Some(ProposalMetadata("", None, "", "", "", ""))
    case JObject(f) =>
      var title, authors, summary := StringField(f, "title"), StringsField(f, "authors"), StringField(f, "summary");
      var details, forum, context := StringField(f, "details"), StringField(f, "proposal_forum_url"), StringField(f, "vote_option_context");
      if title.None? || authors.None? || summary.None? || details.None? || forum.None? || context.None? then None
      else Some(ProposalMetadata(title.value, authors.value, summary.value, details.value, forum.value, context.value))
    case _ => None
  }

  /** The second decoding, into a map, with the known keys deleted: what is left is unexpected. */
  function Unexpected(j: Json, known: set<string>): set<string> {
    if j.JObject? then j.fields.Keys - known else {}
  }

  /** `UnmarshalProposalMetadata`. */
  function UnmarshalProposalMetadata(parse: string -> Option<Json>, metadata: string): Result<ProposalMetadata, MetadataError> {
    match parse(metadata)
    case None => Err(BadJson)
    case Some(j) =>
      match DecodeProposal(j)
      case None => Err(BadJson)
      case Some(m) =>
        if m.title == "" then Err(MissingTitle)
        else if m.authors.None? then Err(MissingAuthors)
        else if m.details == "" then Err(MissingDetails)
        else if Unexpected(j, ProposalKeys) != {} then Err(UnexpectedFields)
        else Ok(m)
  }

  /** `UnmarshalVoteMetadata`. */
  function UnmarshalVoteMetadata(parse: string -> Option<Json>, metadata: string): Result<VoteMetadata, MetadataError> {
    match parse(metadata)
    case None => Err(BadJson)
    case Some(j) =>
      if !(j.JNull? || j.JObject?) then Err(BadJson)
      else
        var justification := if j.JObject? then StringField(j.fields, "justification") else Some("");
        if justification.None? then Err(BadJson)
        else if Unexpected(j, VoteKeys) != {} then Err(UnexpectedFields)
        else Ok(VoteMetadata(justification.value))
  }

  /**
   * Proposal metadata is accepted exactly when it is a JSON object with no
   * key outside the six known ones, a non-empty string title, an authors
   * array of strings (possibly empty), a non-empty string details and
   * strings (or nulls) for the optional fields; the result carries those
   * values.
   */
  lemma ProposalMetadataAccepted(parse: string -> Option<Json>, metadata: string)
    ensures UnmarshalProposalMetadata(parse, metadata).Ok? <==>
      parse(metadata).Some? && parse(metadata).value.JObject? &&
      var f := parse(metadata).value.fields;
      && f.Keys <= ProposalKeys
      && "title" in f && f["title"].JString? && f["title"].s != ""
      && "authors" in f && f["authors"].JArray? && (forall i :: 0 <= i < |f["authors"].items| ==> IsStringLike(f["authors"].items[i]))
      && "details" in f && f["details"].JString? && f["details"].s != ""
      && (forall k :: k in f && k in {"summary", "proposal_forum_url", "vote_option_context"} ==> IsStringLike(f[k]))
    ensures UnmarshalProposalMetadata(parse, metadata).Ok? ==>
      var f := parse(metadata).value.fields;
      var m := UnmarshalProposalMetadata(parse, metadata).value;
      m.title == f["title"].s && m.details == f["details"].s && m.authors.Some? && |m.authors.value| == |f["authors"].items|
  {
    var r := UnmarshalProposalMetadata(parse, metadata);
    if parse(metadata).Some? && parse(metadata).value.JObject? {
      var f := parse(metadata).value.fields;
      assert StringField(f, "summary").Some? <==> ("summary" in f ==> IsStringLike(f["summary"]));
      assert StringField(f, "proposal_forum_url").Some? <==> ("proposal_forum_url" in f ==> IsStringLike(f["proposal_forum_url"]));
      assert StringField(f, "vote_option_context").Some? <==> ("vote_option_context" in f ==> IsStringLike(f["vote_option_context"]));
    }
  }

  /** The checks run in order: an empty title is reported first, then missing authors, then empty details, then extra keys. */
  lemma ProposalErrorOrder(parse: string -> Option<Json>, metadata: string)
    requires parse(metadata).Some? && DecodeProposal(parse(metadata).value).Some?
    ensures var m := DecodeProposal(parse(metadata).value).value;
      var r := UnmarshalProposalMetadata(parse, metadata);
      && (m.title == "" ==> r == Err(MissingTitle))
      && (m.title != "" && m.authors.None? ==> r == Err(MissingAuthors))
      && (m.title != "" && m.authors.Some? && m.details == "" ==> r == Err(MissingDetails))
      && (m.title != "" && m.authors.Some? && m.details != "" ==>
            (r == Err(UnexpectedFields) <==> Unexpected(parse(metadata).value, ProposalKeys) != {}))
  {
  }

  /** Any key outside the six known ones makes otherwise valid proposal metadata fail. */
  lemma ExtraKeyRejected(parse: string -> Option<Json>, metadata: string, key: string)
    requires parse(metadata).Some? && parse(metadata).value.JObject?
    requires key in parse(metadata).value.fields && key !in ProposalKeys
    ensures UnmarshalProposalMetadata(parse, metadata).Err?
  {
    ProposalMetadataAccepted(parse, metadata);
  }

  /** A string the parser does not accept as JSON is rejected, for proposals and votes alike. */
  lemma NotJsonRejected(parse: string -> Option<Json>, metadata: string)
    requires parse(metadata).None?
    ensures UnmarshalProposalMetadata(parse, metadata) == Err(BadJson)
    ensures UnmarshalVoteMetadata(parse, metadata) == Err(BadJson)
  {
  }

  /**
   * Vote metadata is accepted exactly when it is `null` or a JSON object
   * whose only possible key is "justification", holding a string or `null`.
   */
  lemma VoteMetadataAccepted(parse: string -> Option<Json>, metadata: string)
    ensures UnmarshalVoteMetadata(parse, metadata).Ok? <==>
      parse(metadata).Some? &&
      (parse(metadata).value.JNull? ||
       (parse(metadata).value.JObject? && parse(metadata).value.fields.Keys <= VoteKeys &&
        ("justification" in parse(metadata).value.fields ==> IsStringLike(parse(metadata).value.fields["justification"]))))
    ensures UnmarshalVoteMetadata(parse, metadata).Ok? && parse(metadata).value.JObject? &&
            "justification" in parse(metadata).value.fields && parse(metadata).value.fields["justification"].JString? ==>
      UnmarshalVoteMetadata(parse, metadata).value.justification == parse(metadata).value.fields["justification"].s
  {
  }

  /** The "missing optional fields" input of the handler test: only a title and a summary, rejected for want of authors. */
  lemma TitleAndSummaryRejected(parse: string -> Option<Json>, metadata: string)
    requires parse(metadata) == Some(JObject(map["title" := JString("Mock Proposal"), "summary" := JString("Mock proposal for testing purposes")]))
    ensures UnmarshalProposalMetadata(parse, metadata) == Err(MissingAuthors)
  {
    var f := parse(metadata).value.fields;
    assert StringField(f, "title") == Some("Mock Proposal");
    assert StringsField(f, "authors") == Some(None);
  }

  /** An empty authors array is present, not missing. */
  lemma EmptyAuthorsAccepted(parse: string -> Option<Json>, metadata: string)
    requires parse(metadata) == Some(JObject(map["title" := JString("t"), "authors" := JArray([]), "details" := JString("d")]))
    ensures UnmarshalProposalMetadata(parse, metadata) == Ok(ProposalMetadata("t", Some([]), "", "d", "", ""))
  {
    var f := parse(metadata).value.fields;
    assert StringsField(f, "authors") == Some(Some([]));
    assert f.Keys == {"title", "authors", "details"};
  }
}
