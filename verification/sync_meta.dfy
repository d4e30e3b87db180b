/**
 * Sync metadata and the bookkeeping both `syncContacts` functions share:
 * how the outcome of a request is recorded, and how an error response is
 * turned into a message (`readErrorMessage`, identical in both files).
 */
module SyncMeta {
  import opened Types
  import opened JsText
  import Merge

  /** The last API key check of the options page. */
  datatype ApiCheck = ApiCheck(ok: bool, detail: string, checkedAt: nat)

  /** `syncMeta` as stored. `lastSyncAt` is the watermark below which local
      changes count as acknowledged; `lastSyncAttempt` feeds the content
      script's rate limit. */
  datatype Meta = Meta(
    apiKey: string,
    lastSyncAt: nat,
    lastSyncError: Option<string>,
    lastApiCheck: Option<ApiCheck>,
    lastSyncAttempt: nat)

  /** `DEFAULT_META`. */
  const DefaultMeta: Meta := Meta("", 0, None, None, 0)

  /** The metadata of a freshly entered key: every sync field back to its
      default, as the key is a new identity with no shared history. */
  function ForNewKey(key: string): Meta {
    DefaultMeta.(apiKey := key)
  }

  /** An error response body, as far as the message lookup reads it. */
  datatype JsonBody =
    | NotJson
      /** A parsed object; a field that is absent or falsy reads as "". */
    | JsonObject(message: string, error: string)
    | JsonOther

  datatype ErrorBody =
    | Unreadable                          // reading the body threw
    | Body(text: string, json: JsonBody)

  /** `${response.status} ${response.statusText}` */
  function StatusLine(status: nat, statusText: string): string {
    NatToDecimal(status) + " " + statusText
  }

  /** `readErrorMessage`: the JSON body's `message`, else its `error`, else
      the raw text; the status line when the body is empty or unreadable.
      The result is never empty, so a recorded error always shows. */
  function ReadErrorMessage(status: nat, statusText: string, body: ErrorBody): (r: string)
    ensures |r| > 0
    ensures body.Unreadable? || body.text == "" ==> r == StatusLine(status, statusText)
    ensures body.Body? && body.text != "" ==>
      r == body.text
      || (body.json.JsonObject? && (r == body.json.message || r == body.json.error))
    ensures body.Body? && body.text != "" && body.json.JsonObject? && body.json.message != "" ==>
      r == body.json.message
    ensures body.Body? && body.text != "" && body.json.JsonObject? && body.json.message == "" && body.json.error != "" ==>
      r == body.json.error
    ensures body.Body? && body.text != "" && !(body.json.JsonObject? && (body.json.message != "" || body.json.error != "")) ==>
      r == body.text
  {
    if body.Unreadable? || body.text == "" then StatusLine(status, statusText)
    else if body.json.JsonObject? && body.json.message != "" then body.json.message
    else if body.json.JsonObject? && body.json.error != "" then body.json.error
    else body.text
  }

  /** The status line reads back: up to its first space it is the status
      code in decimal, after it the status text. */
  lemma StatusLineReadsBack(status: nat, statusText: string)
    ensures var line := StatusLine(status, statusText);
      var k := |NatToDecimal(status)|;
      && 0 < k < |line| && line[k] == ' ' && line[k + 1..] == statusText
      && AllDecimal(line[..k]) && DecimalValue(line[..k]) == status
  {
    var line := StatusLine(status, statusText);
    var k := |NatToDecimal(status)|;
    assert line[..k] == NatToDecimal(status);
    DecimalRoundTrip(status);
  }

  /** What the page shows for typical error responses: a JSON `message`
      wins over `error`, `error` is shown without `message`, a body that is
      not JSON is shown as it is, and an empty body falls back to the
      status line. */
  lemma ErrorMessageExamples()
    ensures ReadErrorMessage(401, "Unauthorized", Body("{\"error\":\"invalid key\"}", JsonObject("", "invalid key"))) == "invalid key"
    ensures ReadErrorMessage(400, "Bad Request", Body("{\"message\":\"m\",\"error\":\"e\"}", JsonObject("m", "e"))) == "m"
    ensures ReadErrorMessage(502, "Bad Gateway", Body("upstream down", NotJson)) == "upstream down"
    ensures ReadErrorMessage(502, "Bad Gateway", Body("", NotJson)) == "502 Bad Gateway"
    ensures ReadErrorMessage(500, "", Unreadable) == "500 "
  {
    assert NatToDecimal(50) == "50";
    assert NatToDecimal(502) == "502";
    assert NatToDecimal(500) == "500";
  }

  /** How a sync request ended. */
  datatype SyncOutcome =
      /** A 2xx response whose JSON body was read; `items` is its `items` member. */
    | Delivered(items: Merge.RemoteItems)
      /** A non-2xx response. */
    | Rejected(status: nat, statusText: string, body: ErrorBody)
      /** `fetch` or `response.json()` threw; `message` is the exception's, "" if it has none. */
    | Failed(message: string)

  /** `e && e.message ? e.message : "Network error"` */
  function FailureMessage(message: string): (r: string)
    ensures |r| > 0
    ensures message != "" ==> r == message
    ensures message == "" ==> r == "Network error"
  {
    if message != "" then message else "Network error"
  }

  /** The outcome bookkeeping of `syncContacts`: a delivered response moves
      the watermark to the sync moment and clears the error; a rejected or
      failed one records a non-empty error and leaves the watermark where
      it was, so the same change set is sent again next time. */
  function SettleMeta(meta: Meta, outcome: SyncOutcome, syncMoment: nat): (m: Meta)
    ensures outcome.Delivered? ==> m.lastSyncAt == syncMoment && m.lastSyncError == None
    ensures !outcome.Delivered? ==>
      m.lastSyncAt == meta.lastSyncAt && m.lastSyncError.Some? && |m.lastSyncError.value| > 0
    ensures outcome.Rejected? ==>
      m.lastSyncError == Some(ReadErrorMessage(outcome.status, outcome.statusText, outcome.body))
    ensures outcome.Failed? ==> m.lastSyncError == Some(FailureMessage(outcome.message))
    ensures m.apiKey == meta.apiKey && m.lastSyncAttempt == meta.lastSyncAttempt
    ensures m.lastApiCheck == meta.lastApiCheck
  {
    match outcome
    case Delivered(_) => meta.(lastSyncAt := syncMoment, lastSyncError := None)
    case Rejected(status, statusText, body) =>
      meta.(lastSyncError := Some(ReadErrorMessage(status, statusText, body)))
    case Failed(message) => meta.(lastSyncError := Some(FailureMessage(message)))
  }

  /** The request body of a sync round. */
  datatype Payload = Payload(currentTimestamp: nat, items: map<string, Entry>)
}
