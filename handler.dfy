/** The part of the POST handler that decides what is stored for a
    submission: the pasted input is always kept; an empty input gets a
    prompt instead of a result; otherwise the formatter's output or its
    error message is recorded. */
module Handler {
  import opened Text
  import opened Scanning
  import opened Envelope
  import opened Store

  /** The prompt shown when nothing was pasted. */
  const PromptMessage := "Please paste a Sentry envelope"

  /** The record built for a submitted envelope, before it is stamped. */
  function Record<V>(envelope: string, parse: string -> ParseResult<V>, pretty: V -> string): ResultData
  {
    if envelope == "" then ResultData("", PromptMessage, false, envelope, 0)
    else match Format(envelope, parse, pretty)
      case Formatted(text) => ResultData(text, "", true, envelope, 0)
      case Failed(e) => ResultData("", ErrorMessage(e), false, envelope, 0)
  }

  /** The three outcomes of a submission, with the input always kept: the
      prompt for exactly "", the formatter's error message when it fails,
      and its output when it succeeds. A record has a result exactly when
      it has no error. */
  lemma RecordCases<V>(envelope: string, parse: string -> ParseResult<V>, pretty: V -> string)
    ensures var r := Record(envelope, parse, pretty);
            && r.envelope == envelope
            && (envelope == "" ==> r.error == PromptMessage && !r.hasResult)
            && (envelope != "" && Format(envelope, parse, pretty).Failed? ==>
                  r.error == ErrorMessage(Format(envelope, parse, pretty).error) && !r.hasResult)
            && (envelope != "" && Format(envelope, parse, pretty).Formatted? ==>
                  r.formattedEnvelope == Format(envelope, parse, pretty).text && r.hasResult)
            && (r.hasResult <==> r.error == "")
            && (!r.hasResult ==> r.formattedEnvelope == "")
  {
    if envelope != "" && Format(envelope, parse, pretty).Failed? {
      var e := Format(envelope, parse, pretty).error;
      assert |ErrorMessage(e)| >= 5;
    }
  }

  /** Only the exactly empty input gets the prompt: input made only of
      white space is formatted, successfully, to one newline per line. */
  lemma WhitespaceInputHasResult<V>(envelope: string, parse: string -> ParseResult<V>, pretty: V -> string)
    requires envelope != "" && AllSpace(envelope)
    ensures Record(envelope, parse, pretty).hasResult
    ensures Record(envelope, parse, pretty).formattedEnvelope == Newlines(|ScanLines(envelope)|)
    ensures |ScanLines(envelope)| >= 1
  {
    WhitespaceEnvelope(envelope, parse, pretty);
  }

  /** The record-building steps of PostHandler. */
  method BuildResult<V>(envelope: string, parse: string -> ParseResult<V>, pretty: V -> string)
    returns (data: ResultData)
    ensures data == Record(envelope, parse, pretty)
  {
    data := ResultData("", "", false, envelope, 0);
    if envelope == "" {
      data := data.(error := PromptMessage);
    } else {
      var formatted, err := FormatEnvelope(envelope, parse, pretty);
      if err.Some? {
        data := data.(error := ErrorMessage(err.value));
      } else {
        data := data.(formattedEnvelope := formatted, hasResult := true);
      }
    }
  }

  /** PostHandler without the HTTP: builds the record and stores it under
      the given id at time `now`, returning the id to redirect to. */
  method PostHandler<V>(store: ResultStore, envelope: string, parse: string -> ParseResult<V>, pretty: V -> string,
                        id: string, now: int)
    returns (resultId: string)
    modifies store
    ensures resultId == id
    ensures store.entries == old(store.entries)[id := Record(envelope, parse, pretty).(timestamp := now)]
  {
    var data := BuildResult(envelope, parse, pretty);
    resultId := store.StoreResult(data, id, now);
  }
}
