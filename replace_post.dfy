/** The /replace slash command: the checks made before anything is fetched, and the sequence of
    lookups, upload, optional undeletion and refetch that follows, with the reply each answer leads to. */
module ReplacePost {
  import opened Common
  import PostEmbed
  import opened ApiMessages

  /** The command's options and the user who ran it. */
  datatype Request = Request(
    userId: string,
    postId: string,
    reason: string,
    contentType: Option<string>,
    source: Option<string>,
    undelete: bool,
    asPending: bool)

  datatype Credentials = Credentials(username: Option<string>, apiKey: Option<string>)

  /** The verdict of the checks: go on, refuse with a reply, or throw (an undefined janitor list). */
  datatype Gate = Proceed | Refuse(text: string) | Throws

  const ReplaceTypes := ["image/png", "image/jpeg", "image/gif", "image/webp", "video/mp4", "video/webm"]

  const NotAuthorizedText := "You are not authorized to use this command."
  const ShortReasonText := "The reason for replacement must be at least 5 characters long."
  const BadTypeText := "Please upload a valid file type (PNG, JPG, GIF, WEBP, MP4, WEBM)."
  const NoCredentialsText := "Bot owner has not configured E6AI_USERNAME or E6AI_API_KEY in the .env file."

  /** The checks in order; the first that fails decides. A non-empty janitor list admits only its
      members, an empty one everybody, and a missing one throws. */
  function Check(janitors: Option<seq<string>>, req: Request, creds: Credentials): Gate {
    if janitors.None? then Throws
    else if |janitors.value| > 0 && req.userId !in janitors.value then Refuse(NotAuthorizedText)
    else if |req.reason| < 5 then Refuse(ShortReasonText)
    else if req.contentType.None? || req.contentType.value !in ReplaceTypes then Refuse(BadTypeText)
    else if !Truthy(creds.username) || !Truthy(creds.apiKey) then Refuse(NoCredentialsText)
    else Proceed
  }

  /** The answers the command gets, in the order it asks: the old post's file URL (absent when falsy),
      the download of the attachment, the upload, whether the undeletion throws, the refetch, and the
      neighbour lookups of the refreshed message. */
  datatype InfoAnswer = InfoAnswered(oldImageUrl: Option<string>) | InfoFailed(error: ApiError)
  datatype UploadAnswer = Uploaded(response: ApiResponse) | UploadFailed(error: ApiError)
  datatype RefetchAnswer = Refetched(response: PostEmbed.PostsResponse) | RefetchFailed(error: ApiError)
  datatype Server = Server(
    info: InfoAnswer,
    download: Download,
    upload: UploadAnswer,
    undeleteFails: bool,
    refetch: RefetchAnswer,
    neighbours: PostEmbed.Neighbours)

  datatype ReplaceEffect =
    | RefuseReply(text: string)
    | GenericError                 // the command router's "There was an error while executing this command!"
    | Defer
    | FetchAttachment              // the download of the attached file
    | Upload(postId: string, reason: string, source: Option<string>, asPending: bool)
    | OldImage(url: string)
    | UndeletePost(postId: string)
    | FollowUpText(text: string)
    | ShowPost(message: PostEmbed.PostMessage)
    | EditText(text: string)
    | EditError(error: ApiError)   // the reply edited to the error message for `error`

  const NoOldImageText := "Could not fetch the old image. The post might not exist, the API response was not as expected, or the bot may not have permission to view it."
  const NotRefreshedText := "Successfully replaced, but could not refresh the post message."

  /** What reading `length` of a missing `posts` list throws. */
  const PostsMissingMessage := "Cannot read properties of undefined (reading 'length')"

  function UndeleteFailedText(postId: string): string {
    "Replacement was successful, but failed to undelete post " + postId + ". You may need to do it manually."
  }

  /** The text a message-bearing effect shows. */
  function Shown(eff: ReplaceEffect): Option<string> {
    match eff
    case RefuseReply(text) => Some(text)
    case GenericError => Some("There was an error while executing this command!")
    case FollowUpText(text) => Some(text)
    case EditText(text) => Some(text)
    case EditError(e) => Some(ErrorText(ReplaceWording(), e))
    case _ => None
  }

  /** The undeletion, only when asked for; its failure is reported and does not stop the command. */
  function UndeleteSteps(req: Request, s: Server): seq<ReplaceEffect> {
    if !req.undelete then []
    else [UndeletePost(req.postId)] + (if s.undeleteFails then [FollowUpText(UndeleteFailedText(req.postId))] else [])
  }

  /** The refetch after a successful upload: the refreshed post's message, with its buttons, as a
      follow-up. A 200 answer without a `posts` list throws on its `length`, and a message that cannot
      be built throws as well. */
  function RefetchSteps(s: Server): seq<ReplaceEffect> {
    match s.refetch
    case RefetchFailed(e) => [EditError(e)]
    case Refetched(r) =>
      if r.status != 200 then [FollowUpText(NotRefreshedText)]
      else if r.posts.None? then [EditError(OtherError(PostsMissingMessage))]
      else if |r.posts.value| > 0 then
        match PostEmbed.PostMessageOf(r.posts.value[0], Some(s.neighbours))
        case Generated(m) => [ShowPost(m)]
        case Rejected(e) => [EditError(e)]
      else [FollowUpText(NotRefreshedText)]
  }

  /** Everything after the reply is deferred. */
  function AfterDefer(req: Request, s: Server): seq<ReplaceEffect> {
    match s.info
    case InfoFailed(e) => [EditError(e)]
    case InfoAnswered(oldImageUrl) =>
      if oldImageUrl.None? then [EditText(NoOldImageText)]
      else match s.download
        case DownloadFailed(e) => [FetchAttachment, EditError(e)]
        case Downloaded =>
          var source := if Truthy(req.source) then req.source else None;
          [FetchAttachment, Upload(req.postId, req.reason, source, req.asPending)] + AfterUpload(req, s, oldImageUrl.value)
  }

  /** What follows the upload: the old image, the undeletion and the refetch, or the failure. */
  function AfterUpload(req: Request, s: Server, oldImageUrl: string): seq<ReplaceEffect> {
    match s.upload
    case UploadFailed(e) => [EditError(e)]
    case Uploaded(r) =>
      if IsSuccessStatus(r.status) then [OldImage(oldImageUrl)] + UndeleteSteps(req, s) + RefetchSteps(s)
      else [EditText(FailureMessage(req.postId, r))]
  }

  /** One run of the command. */
  function Replace(janitors: Option<seq<string>>, req: Request, creds: Credentials, s: Server): seq<ReplaceEffect> {
    match Check(janitors, req, creds)
    case Throws => [GenericError]
    case Refuse(text) => [RefuseReply(text)]
    case Proceed => [Defer] + AfterDefer(req, s)
  }

  // ---------------------------------------------------------------- properties

  /** Nothing is deferred or fetched before every check has passed; with the shipped configuration,
      which has no janitor list, every run ends in the generic error. */
  lemma ChecksFirst(janitors: Option<seq<string>>, req: Request, creds: Credentials, s: Server)
    ensures (Defer in Replace(janitors, req, creds, s)) <==> Check(janitors, req, creds) == Proceed
    ensures janitors.None? ==> Replace(janitors, req, creds, s) == [GenericError]
    ensures Check(janitors, req, creds) != Proceed ==> |Replace(janitors, req, creds, s)| == 1
  {
    if Check(janitors, req, creds) == Proceed {
      assert Replace(janitors, req, creds, s)[0] == Defer;
    }
  }

  /** The order of the checks: authorisation, then the reason, then the file type, then the credentials.
      An empty janitor list admits everybody. */
  lemma CheckOrder(janitors: seq<string>, req: Request, creds: Credentials)
    ensures |janitors| > 0 && req.userId !in janitors ==> Check(Some(janitors), req, creds) == Refuse(NotAuthorizedText)
    ensures (|janitors| == 0 || req.userId in janitors) && |req.reason| < 5 ==>
      Check(Some(janitors), req, creds) == Refuse(ShortReasonText)
    ensures Check(Some([]), req, creds) != Refuse(NotAuthorizedText)
    ensures Check(Some(janitors), req, creds) == Proceed <==>
      (|janitors| == 0 || req.userId in janitors) && |req.reason| >= 5
      && req.contentType.Some? && req.contentType.value in ReplaceTypes
      && Truthy(creds.username) && Truthy(creds.apiKey)
  {
  }

  /** Without the old image's URL nothing is uploaded. */
  lemma NoUploadWithoutOldImage(req: Request, s: Server)
    requires s.info == InfoAnswered(None)
    ensures AfterDefer(req, s) == [EditText(NoOldImageText)]
  {
  }

  /** Something is submitted only after the attachment has been downloaded; a failed download ends
      in the error message for its error, with nothing uploaded. */
  lemma UploadNeedsDownload(req: Request, s: Server)
    requires s.info.InfoAnswered? && s.info.oldImageUrl.Some?
    ensures (exists e :: e in AfterDefer(req, s) && e.Upload?) <==> s.download.Downloaded?
    ensures s.download.DownloadFailed? ==> AfterDefer(req, s) == [FetchAttachment, EditError(s.download.error)]
    ensures FetchAttachment == AfterDefer(req, s)[0]
  {
    if s.download.Downloaded? {
      assert AfterDefer(req, s)[1].Upload?;
    }
  }

  /** The old image is shown exactly when the attachment was downloaded and the upload answered with
      200, 201 or 204, and the post is undeleted exactly when, in addition, the option asked for it. */
  lemma SuccessAndUndelete(req: Request, s: Server)
    requires s.info.InfoAnswered? && s.info.oldImageUrl.Some?
    ensures (exists e :: e in AfterDefer(req, s) && e.OldImage?) <==>
      s.download.Downloaded? && s.upload.Uploaded? && IsSuccessStatus(s.upload.response.status)
    ensures UndeletePost(req.postId) in AfterDefer(req, s) <==>
      s.download.Downloaded? && s.upload.Uploaded? && IsSuccessStatus(s.upload.response.status) && req.undelete
  {
    if s.download.Downloaded? && s.upload.Uploaded? && IsSuccessStatus(s.upload.response.status) {
      AfterSuccess(req, s);
      assert OldImage(s.info.oldImageUrl.value).OldImage?;
    } else {
      AfterNoSuccess(req, s);
    }
  }

  lemma AfterSuccess(req: Request, s: Server)
    requires s.info.InfoAnswered? && s.info.oldImageUrl.Some? && s.download.Downloaded?
    requires s.upload.Uploaded? && IsSuccessStatus(s.upload.response.status)
    ensures OldImage(s.info.oldImageUrl.value) in AfterDefer(req, s)
    ensures UndeletePost(req.postId) in AfterDefer(req, s) <==> req.undelete
  {
    RefetchNeverUndeletes(s);
    if req.undelete {
      assert UndeletePost(req.postId) in UndeleteSteps(req, s);
    }
  }

  lemma RefetchNeverUndeletes(s: Server)
    ensures forall e :: e in RefetchSteps(s) ==> !e.UndeletePost? && !e.OldImage?
  {
  }

  lemma AfterNoSuccess(req: Request, s: Server)
    requires s.info.InfoAnswered? && s.info.oldImageUrl.Some?
    requires !(s.download.Downloaded? && s.upload.Uploaded? && IsSuccessStatus(s.upload.response.status))
    ensures forall e :: e in AfterDefer(req, s) ==> !e.OldImage? && !e.UndeletePost?
  {
  }

  /** An upload answered with another status is reported with the failure message and nothing follows. */
  lemma FailureReported(req: Request, s: Server)
    requires s.info.InfoAnswered? && s.info.oldImageUrl.Some? && s.download.Downloaded?
    requires s.upload.Uploaded? && !IsSuccessStatus(s.upload.response.status)
    ensures AfterDefer(req, s)[|AfterDefer(req, s)| - 1] == EditText(FailureMessage(req.postId, s.upload.response))
    ensures |AfterDefer(req, s)| == 3
  {
  }

  /** A refetch answered 200 without a `posts` list ends in the error message, not in the
      "could not refresh" notice a 200 with an empty list gets. */
  lemma RefetchWithoutPostsThrows(s: Server)
    requires s.refetch.Refetched? && s.refetch.response.status == 200
    ensures s.refetch.response.posts.None? ==>
      RefetchSteps(s) == [EditError(OtherError(PostsMissingMessage))]
    ensures s.refetch.response.posts == Some([]) ==> RefetchSteps(s) == [FollowUpText(NotRefreshedText)]
  {
  }

  /** A refetched post is shown exactly when its message can be built: its extension is present and,
      unless it is deleted, both of its neighbour lookups answered; otherwise the reply is edited to
      the error message for what was thrown. */
  lemma RefetchShown(s: Server)
    requires s.refetch.Refetched? && PostEmbed.HasPosts(s.refetch.response)
    ensures var post := s.refetch.response.posts.value[0];
      && |RefetchSteps(s)| == 1
      && (RefetchSteps(s)[0].ShowPost? <==>
            post.ext.Some?
            && (PostEmbed.GetStatus(post.flags) == PostEmbed.Deleted
                || (s.neighbours.before.Answered? && s.neighbours.after.Answered?)))
      && (RefetchSteps(s)[0].ShowPost? ==> RefetchSteps(s)[0].message.title == "Post #" + NatToString(post.id))
      && (!RefetchSteps(s)[0].ShowPost? ==> RefetchSteps(s)[0].EditError?)
  {
    var post := s.refetch.response.posts.value[0];
    PostEmbed.GenerateRejects(post, Some(s.neighbours));
    if PostEmbed.PostMessageOf(post, Some(s.neighbours)).Generated? {
      PostEmbed.MessageFields(post, Some(s.neighbours));
    }
  }
}
