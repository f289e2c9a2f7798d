/** The older replacement command: its allowlist, its checks, and the message for each upload answer. */
module ReplaceCommand {
  import opened Common
  import opened ApiMessages
  import ReplacePost

  /** The allowlist from its environment variable: the comma-separated pieces when it is set and
      non-empty, otherwise no entry at all. */
  function Allowlist(env: Option<string>): seq<string> {
    if Truthy(env) then Split(env.value, ',') else []
  }

  /** An empty allowlist admits everybody; otherwise only its entries. */
  predicate Admitted(userId: string, allowlist: seq<string>) {
    |allowlist| == 0 || userId in allowlist
  }

  /** Ids written into the variable with commas between them come back out as the allowlist, so
      exactly those users are admitted. */
  lemma AllowlistRoundTrip(ids: seq<string>, userId: string)
    requires |ids| >= 1 && forall k :: 0 <= k < |ids| ==> ',' !in ids[k]
    requires Join(ids, ',') != ""
    ensures Allowlist(Some(Join(ids, ','))) == ids
    ensures Admitted(userId, Allowlist(Some(Join(ids, ',')))) <==> userId in ids
  {
    SplitJoin(ids, ',');
  }

  /** An unset or empty variable admits everybody. */
  lemma UnsetAdmitsEverybody(userId: string)
    ensures Admitted(userId, Allowlist(None)) && Admitted(userId, Allowlist(Some("")))
  {
  }

  const ImageTypes := ["image/png", "image/jpeg", "image/gif", "image/webp"]

  const NoPermissionText := "You do not have permission to use this command."
  const BadTypeText := "Please upload a valid image type (PNG, JPG, GIF, WEBP)."

  datatype Gate = Proceed | Refuse(text: string)

  /** The checks in order: the allowlist, the reason's length, the image type, the credentials. */
  function Check(allowlist: seq<string>, userId: string, reason: string, contentType: Option<string>,
                 username: Option<string>, apiKey: Option<string>): Gate {
    if !Admitted(userId, allowlist) then Refuse(NoPermissionText)
    else if |reason| < 5 then Refuse(ReplacePost.ShortReasonText)
    else if contentType.None? || contentType.value !in ImageTypes then Refuse(BadTypeText)
    else if !Truthy(username) || !Truthy(apiKey) then Refuse(ReplacePost.NoCredentialsText)
    else Proceed
  }

  /** This command takes still images only, a subset of what /replace takes. */
  lemma ImageTypesNarrower(contentType: string)
    ensures contentType in ImageTypes ==> contentType in ReplacePost.ReplaceTypes
    ensures "video/mp4" !in ImageTypes && "video/mp4" in ReplacePost.ReplaceTypes
  {
  }

  const SuccessHead := "Successfully submitted replacement for post ID "

  /** The message for a successful upload: the new location, else a plain confirmation when the body
      says `success: true`, else the returned id, else a generic line with the status. */
  function SuccessMessage(postId: string, r: ApiResponse): (m: string)
    ensures (SuccessHead + postId) <= m
  {
    var head := SuccessHead + postId;
    if r.data.Some? && r.data.value.location.Some? then head + ". New location: " + r.data.value.location.value
    else if r.data.Some? && r.data.value.successTrue then head + "."
    else if r.data.Some? && r.data.value.id.Some? then head + ". Replacement/Post ID: " + r.data.value.id.value
    else head + " (Status: " + NatToString(r.status) + "). Check details if available."
  }

  /** A location decides the message whatever the other members say; without one, `success: true`
      decides it whatever the id. */
  lemma SuccessPriority(postId: string, r: ApiResponse, successTrue: bool, id: Option<string>)
    requires r.data.Some?
    ensures r.data.value.location.Some? ==>
      SuccessMessage(postId, r) == SuccessMessage(postId, r.(data := Some(r.data.value.(successTrue := successTrue, id := id))))
    ensures r.data.value.location.None? && r.data.value.successTrue ==>
      SuccessMessage(postId, r) == SuccessMessage(postId, r.(data := Some(r.data.value.(id := id))))
  {
  }

  datatype UploadAnswer = Uploaded(response: ApiResponse) | UploadFailed(error: ApiError)

  datatype CommandEffect =
    | RefuseReply(text: string)
    | Defer
    | FetchAttachment              // the download of the attached image
    | Upload(postId: string, reason: string)
    | EditText(text: string)

  /** One run of the command: the checks, then the deferred reply and the submission. */
  function Run(allowlist: seq<string>, userId: string, postId: string, reason: string, contentType: Option<string>,
               username: Option<string>, apiKey: Option<string>, download: Download, answer: UploadAnswer): seq<CommandEffect> {
    match Check(allowlist, userId, reason, contentType, username, apiKey)
    case Refuse(text) => [RefuseReply(text)]
    case Proceed => [Defer] + Submit(postId, reason, download, answer)
  }

  /** The download of the image, then its upload and the reply to the upload's answer; a failed
      download goes straight to the error message. */
  function Submit(postId: string, reason: string, download: Download, answer: UploadAnswer): seq<CommandEffect> {
    match download
    case DownloadFailed(e) => [FetchAttachment, EditText(ErrorText(ReplaceWording(), e))]
    case Downloaded => [FetchAttachment, Upload(postId, reason), EditText(ReplyText(postId, answer))]
  }

  /** The text the deferred reply is edited to once the upload is answered. */
  function ReplyText(postId: string, answer: UploadAnswer): string {
    match answer
    case UploadFailed(e) => ErrorText(ReplaceWording(), e)
    case Uploaded(r) => if IsSuccessStatus(r.status) then SuccessMessage(postId, r) else FailureMessage(postId, r)
  }

  /** The upload is sent exactly when every check passes and the image has been downloaded, and the
      image is downloaded only after the checks. */
  lemma UploadOnlyAfterChecks(allowlist: seq<string>, userId: string, postId: string, reason: string,
                              contentType: Option<string>, username: Option<string>, apiKey: Option<string>,
                              download: Download, answer: UploadAnswer)
    ensures var run := Run(allowlist, userId, postId, reason, contentType, username, apiKey, download, answer);
      && ((Upload(postId, reason) in run) <==>
            Check(allowlist, userId, reason, contentType, username, apiKey) == Proceed && download.Downloaded?)
      && (FetchAttachment in run <==> Check(allowlist, userId, reason, contentType, username, apiKey) == Proceed)
  {
    var gate := Check(allowlist, userId, reason, contentType, username, apiKey);
    if gate == Proceed {
      SubmitNeedsDownload(postId, reason, download, answer);
    }
  }

  /** The submission starts with the download; the upload follows exactly when the download succeeds,
      and a failed download ends in the command's error message. */
  lemma SubmitNeedsDownload(postId: string, reason: string, download: Download, answer: UploadAnswer)
    ensures var sub := Submit(postId, reason, download, answer);
      && sub[0] == FetchAttachment
      && (Upload(postId, reason) in sub <==> download.Downloaded?)
      && (download.DownloadFailed? ==> sub[|sub| - 1].EditText? && ReplaceWording().opening <= sub[|sub| - 1].text)
  {
    if download.Downloaded? {
      SubmitDownloaded(postId, reason, answer);
    } else {
      SubmitFailed(postId, reason, download.error, answer);
    }
  }

  lemma SubmitDownloaded(postId: string, reason: string, answer: UploadAnswer)
    ensures var sub := Submit(postId, reason, Downloaded, answer);
      |sub| == 3 && sub[0] == FetchAttachment && sub[1] == Upload(postId, reason)
  {
  }

  lemma SubmitFailed(postId: string, reason: string, e: ApiError, answer: UploadAnswer)
    ensures var sub := Submit(postId, reason, DownloadFailed(e), answer);
      |sub| == 2 && sub[0] == FetchAttachment && !sub[1].Upload?
      && sub[1] == EditText(ErrorText(ReplaceWording(), e))
  {
  }

  /** An answered upload is reported as a success exactly when its status is 200, 201 or 204. */
  lemma ReplyFollowsStatus(postId: string, r: ApiResponse)
    ensures SuccessHead <= ReplyText(postId, Uploaded(r)) <==> IsSuccessStatus(r.status)
  {
    if IsSuccessStatus(r.status) {
      SuccessReplyMarked(postId, r);
    } else {
      FailureReplyUnmarked(postId, r);
    }
  }

  lemma SuccessReplyMarked(postId: string, r: ApiResponse)
    requires IsSuccessStatus(r.status)
    ensures SuccessHead <= ReplyText(postId, Uploaded(r))
  {
    PrefixOfPrefix(SuccessHead, postId, SuccessMessage(postId, r));
  }

  lemma FailureReplyUnmarked(postId: string, r: ApiResponse)
    requires !IsSuccessStatus(r.status)
    ensures !(SuccessHead <= ReplyText(postId, Uploaded(r)))
  {
    SuccessHeadFirst();
    FailureFirst(postId, r);
    PrefixesDiffer(SuccessHead, FailureMessage(postId, r));
  }

  lemma SuccessHeadFirst()
    ensures |SuccessHead| > 0 && SuccessHead[0] == 'S'
  {
    FirstOfPrefix("Successfully", SuccessHead);
  }

  lemma FailureFirst(postId: string, r: ApiResponse)
    ensures |FailureMessage(postId, r)| > 0 && FailureMessage(postId, r)[0] == 'F'
  {
    var lead := "Failed to replace post ID ";
    FirstOfPrefix("Failed", lead);
    FirstOfPrefix(lead, FailureMessage(postId, r));
  }

  lemma FirstOfPrefix(p: string, s: string)
    requires |p| > 0 && p <= s
    ensures |s| > 0 && s[0] == p[0]
  {
  }

  lemma PrefixOfPrefix(a: string, b: string, m: string)
    requires a + b <= m
    ensures a <= m
  {
    assert m[..|a|] == (a + b)[..|a|] == a;
  }

  lemma PrefixesDiffer(p: string, m: string)
    requires |p| > 0 && |m| > 0 && p[0] != m[0]
    ensures !(p <= m)
  {
  }
}
