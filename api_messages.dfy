/** The replies the slash commands build from an e6ai API answer: which statuses count as success,
    the failure message for any other status, and the message for a request that threw. */
module ApiMessages {
  import opened Common

  /** The members of a response body the messages read. Each optional member is `None` when it is
      absent or falsy and otherwise holds the text it renders to; `json` is `JSON.stringify` of the body. */
  datatype ApiData = ApiData(
    reason: Option<string>,
    message: Option<string>,
    location: Option<string>,
    successTrue: bool,
    id: Option<string>,
    json: string)

  /** An HTTP answer; `data` is `None` when the body is falsy. */
  datatype ApiResponse = ApiResponse(status: nat, statusText: string, data: Option<ApiData>)

  /** How a request can throw: with a response, with no response received, or otherwise (with its message). */
  datatype ApiError = ResponseError(response: ApiResponse) | NoResponse | OtherError(message: string)

  /** How the download of the attached file ends; only a rejection, with its error, matters. */
  datatype Download = Downloaded | DownloadFailed(error: ApiError)

  /** A replacement upload succeeded: status 200, 201 or 204 and nothing else. */
  predicate IsSuccessStatus(status: nat) {
    status == 200 || status == 201 || status == 204
  }

  function StatusLine(r: ApiResponse): string {
    NatToString(r.status) + " - " + r.statusText
  }

  /** The message for an upload answered with a status other than success: the API's reason, else its
      message, else up to 1500 characters of the body as JSON with the status, else the status line. */
  function FailureMessage(postId: string, r: ApiResponse): (m: string)
    ensures ("Failed to replace post ID " + postId + ". ") <= m
  {
    var head := "Failed to replace post ID " + postId + ". ";
    if r.data.Some? && r.data.value.reason.Some? then head + "API Reason: " + r.data.value.reason.value
    else if r.data.Some? && r.data.value.message.Some? then head + "API Message: " + r.data.value.message.value
    else if r.data.Some? then
      head + "API Response: " + Truncate(r.data.value.json, 1500) + " (Status: " + NatToString(r.status) + ")"
    else head + "Status: " + StatusLine(r)
  }

  /** A reason decides the message: the body's message and JSON text then make no difference. */
  lemma ReasonFirst(postId: string, r: ApiResponse, message: Option<string>, json: string)
    requires r.data.Some? && r.data.value.reason.Some?
    ensures FailureMessage(postId, r) == FailureMessage(postId, r.(data := Some(r.data.value.(message := message, json := json))))
    ensures FailureMessage(postId, r) == "Failed to replace post ID " + postId + ". API Reason: " + r.data.value.reason.value
  {
  }

  /** Without a reason, a message decides it and the JSON text makes no difference. */
  lemma MessageSecond(postId: string, r: ApiResponse, json: string)
    requires r.data.Some? && r.data.value.reason.None? && r.data.value.message.Some?
    ensures FailureMessage(postId, r) == FailureMessage(postId, r.(data := Some(r.data.value.(json := json))))
  {
  }

  /** The body's JSON text is quoted only when it has neither reason nor message, and then at most 1500 characters of it. */
  lemma JsonBounded(postId: string, r: ApiResponse)
    requires r.data.Some? && r.data.value.reason.None? && r.data.value.message.None?
    ensures |FailureMessage(postId, r)| <= |"Failed to replace post ID " + postId + ". API Response: "| + 1500
                                            + |" (Status: " + NatToString(r.status) + ")"|
    ensures |r.data.value.json| <= 1500 ==> r.data.value.json <= FailureMessage(postId, r)[|"Failed to replace post ID " + postId + ". API Response: "|..]
  {
    var head := "Failed to replace post ID " + postId + ". API Response: ";
    var j := r.data.value.json;
    if |j| <= 1500 {
      assert FailureMessage(postId, r) == head + (j + " (Status: " + NatToString(r.status) + ")");
      assert FailureMessage(postId, r)[|head|..] == j + " (Status: " + NatToString(r.status) + ")";
    }
  }

  /** The wording of the error messages, which differs between commands: the opening sentence, what
      follows the status text, the labels of reason and details, and the no-response sentence. */
  datatype Wording = Wording(opening: string, statusEnd: string, reasonLabel: string, detailsLabel: string, noResponse: string)

  /** The error message as the command builds it: the opening, then what the error carries. */
  function ErrorText(w: Wording, e: ApiError): (m: string)
    ensures w.opening <= m
  {
    match e
    case ResponseError(r) =>
      var line := w.opening + " API Error: " + StatusLine(r) + w.statusEnd;
      if r.data.Some? && (r.data.value.reason.Some? || r.data.value.message.Some?) then
        line + w.reasonLabel + (if r.data.value.reason.Some? then r.data.value.reason.value else r.data.value.message.value)
      else if r.data.Some? then line + w.detailsLabel + Truncate(r.data.value.json, 500)
      else line
    case NoResponse => w.opening + w.noResponse
    case OtherError(message) => w.opening + " " + message
  }

  /** The message is built by appending to the opening sentence, one piece per case. */
  method BuildErrorMessage(w: Wording, e: ApiError) returns (m: string)
    ensures m == ErrorText(w, e)
  {
    m := w.opening;
    match e {
      case ResponseError(r) =>
        m := m + " API Error: " + NatToString(r.status) + " - " + r.statusText + w.statusEnd;
        if r.data.Some? && (r.data.value.reason.Some? || r.data.value.message.Some?) {
          var shown := if r.data.value.reason.Some? then r.data.value.reason.value else r.data.value.message.value;
          m := m + w.reasonLabel + shown;
        } else if r.data.Some? {
          m := m + w.detailsLabel + Truncate(r.data.value.json, 500);
        }
      case NoResponse =>
        m := m + w.noResponse;
      case OtherError(message) =>
        m := m + " " + message;
    }
  }

  /** In an error message a reason is preferred to a message, and the JSON text is quoted only when
      the body has neither, then at most 500 characters of it. */
  lemma ErrorReasonFirst(w: Wording, r: ApiResponse, message: Option<string>, json: string)
    requires r.data.Some? && r.data.value.reason.Some?
    ensures ErrorText(w, ResponseError(r)) == ErrorText(w, ResponseError(r.(data := Some(r.data.value.(message := message, json := json)))))
  {
  }

  lemma ErrorDetailsBounded(w: Wording, r: ApiResponse)
    requires r.data.Some? && r.data.value.reason.None? && r.data.value.message.None?
    ensures |ErrorText(w, ResponseError(r))| <= |w.opening + " API Error: " + StatusLine(r) + w.statusEnd + w.detailsLabel| + 500
  {
  }

  /** /view's wording. */
  function ViewWording(): Wording {
    Wording("An error occurred while trying to fetch the post.", ".", " Reason: ", " Details: ",
            " No response received from the API.")
  }

  /** The wording of both replacement commands. */
  function ReplaceWording(): Wording {
    Wording("An error occurred while trying to process the replacement.", ". ", "Reason: ", "Details: ",
            " No response received from the API. Is the local server running and accessible?")
  }
}
